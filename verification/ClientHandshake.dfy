/** The client side of the TLS 1.2 handshake. */
module ClientHandshake {
  import opened Bytes
  import opened Wire
  import opened Extensions
  import opened Messages
  import opened KeySchedule
  import opened Reassembly
  import opened ClientSpec
  import opened ClientChecks
  import RecordLayer
  import Dhe
  import T = Transcript

  const HANDSHAKE_FAILURE: byte := 40
  const BAD_CERTIFICATE: byte := 42
  const ILLEGAL_PARAMETER: byte := 47
  const DECRYPT_ERROR: byte := 51
  const PROTOCOL_VERSION: byte := 70
  const INTERNAL_ERROR: byte := 80
  const UNEXPECTED_MESSAGE: byte := 10
  const UNSUPPORTED_EXTENSION: byte := 110

  /** A message opened again from its rebuilt envelope is its parsed body. */
  method ParseEnveloped(t: byte, body: seq<byte>) returns (m: Option<Message>)
    requires |body| <= MAX_HANDSHAKE
    ensures m == ParseBody(t, body)
  {
    hide ParseBody, Envelope, ParseMessage;
    ParseEnvelope(t, body, []);
    assert Envelope(t, body) + [] == Envelope(t, body);
    var r := ParseMessage(Envelope(t, body));
    m := if r.None? then None else Some(r.value.0);
  }

  class Client {
    const env: Env
    const transcript: T.Transcript
    const layer: RecordLayer.Layer
    var hsBuf: seq<byte>
    var writes: nat
    var clientRandom: Random
    var serverRandom: seq<byte>
    var suite: Option<Suite>
    var certReq: Option<Message>
    var clientCertSent: bool
    var clientSigAlg: SigAndHash
    var done: bool
    ghost var trace: seq<Event>
    ghost var outs: seq<RecordLayer.Event>
    ghost var alert: Option<Attempt>

    /** What the record layer has still to read. */
    ghost function In(): (src: Source)
      reads layer`recvProt, layer`recvSeq, layer`input
      ensures layer.recvProt.Sound() ==> src.Sound()
    {
      Source(layer.Receiving(), layer.input)
    }

    /** While neither transport nor random source fails, the bytes written are
        those of the trace, even after a record was refused. */
    ghost predicate Live()
      reads this`trace, this`outs, layer`sendProt, layer`recvProt, layer`sendSeq, layer`written
      ensures Live() ==> env.Sound() && layer.Valid()
    {
      && env.Sound() && layer.Valid()
      && (env.Unfailing() ==>
            layer.sendSeq <= |trace| && Synced(layer.written, layer.Sending(), outs, trace))
    }

    /** The trace ends in the attempt to send an alert, of which exactly the
        bytes that the transport took were written; if nothing fails, the alert
        is among the records a peer reads. */
    ghost predicate Ended()
      reads this`trace, this`outs, this`alert, this`writes, layer
      ensures Ended() ==> EndsInAlert(trace) && alert.Some? && env.Sound() && alert.value.end.prot.Sound()
    {
      && alert.Some? && trace != [] && trace[|trace| - 1] == Alert(alert.value.desc)
      && env.Sound() && alert.value.end.prot.Sound()
      && alert.value.at + 1 == writes
      && layer.written == alert.value.before + OnWire(env, alert.value)
      && (env.Unfailing() && |trace| <= MAX_EVENTS ==>
            AlertAccepted(env, alert.value) && Synced(layer.written, layer.Sending(), outs, trace))
    }

    /** The bytes written are exactly those of the trace, under the protectors
        installed in it. */
    ghost predicate Valid()
      reads this`hsBuf, this`trace, this`outs, layer
      ensures Valid() ==> Live()
    {
      && Live()
      && |hsBuf| < RecordLayer.MAX_PLAINTEXT
      && layer.sendSeq <= |trace|
      && Synced(layer.written, layer.Sending(), outs, trace)
    }

    /** The whole alert record has been written. */
    ghost predicate AlertSent()
      reads this`alert, layer`written
      ensures AlertSent() ==> alert.Some?
    {
      && alert.Some? && env.Sound() && alert.value.end.prot.Sound()
      && alert.value.before <= layer.written
      && WholeRecord(env, alert.value, layer.written[|alert.value.before|..])
    }

    lemma AlertIsLast()
      requires Ended()
      ensures alert.value.at + 1 == writes
    {
    }

    lemma AlertDecided()
      requires Ended()
      ensures AlertSent() <==> AlertAccepted(env, alert.value)
      ensures env.Unfailing() && |trace| <= MAX_EVENTS ==>
                AlertSent() && PeerReads(layer.written, trace, layer.Sending())
    {
      hide Synced, PeerReads, WholeRecord, OnWire, AlertAccepted, RecordLayer.Protector.Sound;
      WholeIffAccepted(env, alert.value);
      assert layer.written[|alert.value.before|..] == OnWire(env, alert.value);
      if env.Unfailing() && |trace| <= MAX_EVENTS {
        SyncedReads(layer.written, layer.Sending(), outs, trace);
      }
    }

    lemma IsSynced()
      requires Valid()
      ensures Synced(layer.written, layer.Sending(), outs, trace)
    {
    }

    /** The transcript has been given every message sent or received. */
    ghost predicate InSync()
      reads this`trace, transcript
    {
      transcript.St() == T.AppendAll(Envelopes(trace))
    }

    /** On a layer that has not been used. */
    constructor (layer: RecordLayer.Layer, env: Env)
      requires env.Sound() && layer.Valid() && layer.Sending() == START && layer.written == []
      ensures Valid() && InSync() && trace == [] && this.env == env && this.layer == layer && fresh(transcript)
      ensures hsBuf == [] && certReq == None && !clientCertSent && !done && writes == 0 && alert == None
    {
      this.env, this.layer := env, layer;
      transcript := new T.Transcript();
      hsBuf, writes, clientRandom, serverRandom := [], 0, seq(32, _ => 0), [];
      suite, certReq, clientCertSent, clientSigAlg, done := None, None, false, SigAndHash(0, 0), false;
      trace, outs, alert := [], [], None;
    }

    // ---- Records ----------------------------------------------------------

    /** Writes a record; if that succeeds, it is event `e` of the trace. */
    method WriteRecord(ct: byte, payload: seq<byte>, ghost e: Event) returns (ok: bool)
      requires Live() && OutEvent(e) == [RecordLayer.Write(ct, payload, [])]
      modifies this`writes, this`trace, this`outs, layer`written, layer`sendSeq, layer`sendProt
      ensures Live()
      ensures ok <==> Accepted(env, old(writes), old(layer.Sending()), ct, payload)
      ensures !ok ==> trace == old(trace)
      ensures ok ==> trace == old(trace) + [e] && layer.sendSeq == old(layer.sendSeq) + 1
      ensures ok && old(Synced(layer.written, layer.Sending(), outs, trace)) ==>
                Synced(layer.written, layer.Sending(), outs, trace)
      ensures writes == old(writes) + 1
      ensures layer.written == old(layer.written) + Taken(env, old(writes), old(layer.Sending()), ct, payload)
    {
      hide RecordLayer.WriteOne, RecordLayer.Protector.Sound, Synced, OutEvent;
      UnfailingRefuses(env, writes, layer.Sending(), ct, payload);
      var random := env.draw(writes, IvSize(layer.sendProt));
      ghost var end := layer.Sending();
      ghost var x := RecordLayer.Write(ct, payload, RecordLayer.Drawn(random));
      var error := layer.WriteRecord(ct, payload, random, env.room(writes));
      writes := writes + 1;
      ok := error.None?;
      if ok {
        WrittenAdvances(end, ct, payload, RecordLayer.Drawn(random));
        if Synced(old(layer.written), end, outs, trace) {
          SyncedStep(old(layer.written), end, outs, trace, e, x);
        }
        trace, outs := trace + [e], outs + [x];
      }
    }

    /** The result of the write is ignored. */
    method Fatal(desc: byte)
      requires Live()
      modifies this`writes, this`trace, this`outs, this`alert, layer`written, layer`sendSeq, layer`sendProt
      ensures trace == old(trace) + [Alert(desc)] && Ended() && writes == old(writes) + 1
      ensures alert == Some(Attempt(desc, old(writes), old(layer.Sending()), old(layer.written)))
      ensures AlertAccepted(env, alert.value) && old(Synced(layer.written, layer.Sending(), outs, trace)) ==>
                Synced(layer.written, layer.Sending(), outs, trace)
    {
      hide RecordLayer.WriteOne, RecordLayer.Protector.Sound, Synced, Accepted;
      alert := Some(Attempt(desc, writes, layer.Sending(), layer.written));
      UnfailingAccepts(env, writes, layer.Sending(), RecordLayer.ALERT, [2, desc]);
      var ok := WriteRecord(RecordLayer.ALERT, [2, desc], Alert(desc));
      if !ok {
        trace := trace + [Alert(desc)];
      }
    }

    method WriteTranscript(t: byte, body: seq<byte>, ghost before: seq<Event>)
      requires transcript.St() == T.AppendAll(Envelopes(before))
      requires trace == before + [Sent(t, body)] || trace == before + [Received(t, body)]
      modifies transcript
      ensures InSync()
    {
      hide T.AppendAll, Envelopes, Envelope;
      ghost var e := trace[|before|];
      EnvelopesSnoc(before, e);
      T.AppendAllSnoc(Envelopes(before), Envelope(t, body));
      transcript.Write(Envelope(t, body));
    }

    /** Writes the message as one record and, if that succeeds, adds it to the
        transcript. */
    method SendMessage(m: Message) returns (ok: bool)
      requires Valid() && InSync()
      modifies this`writes, this`trace, this`outs, layer`written, layer`sendSeq, layer`sendProt, transcript
      ensures Live()
      ensures ok ==> Valid() && InSync() && trace == old(trace) + [Sent(TypeOf(m), Marshal(m))]
      ensures !ok ==> trace == old(trace)
      ensures ok <==> Accepted(env, old(writes), old(layer.Sending()), RecordLayer.HANDSHAKE, MarshalMessage(m))
      ensures env.Unfailing() && FitsRecord(m) && |old(trace)| <= MAX_EVENTS ==> ok
      ensures writes >= old(writes)
      ensures writes == old(writes) + 1
    {
      hide Marshal, T.AppendAll, Envelopes, Synced, Accepted, RecordLayer.Protector.Sound;
      ghost var before := trace;
      ghost var e := Sent(TypeOf(m), Marshal(m));
      assert OutEvent(e) == [RecordLayer.Write(RecordLayer.HANDSHAKE, MarshalMessage(m), [])];
      UnfailingAccepts(env, writes, layer.Sending(), RecordLayer.HANDSHAKE, MarshalMessage(m));
      ok := WriteRecord(RecordLayer.HANDSHAKE, MarshalMessage(m), e);
      if ok {
        WriteTranscript(TypeOf(m), Marshal(m), before);
      }
    }

    /** The next whole message. Between records the buffer never reaches
        4 + 2^18 + 2^14 bytes; after a message it is under 2^14. */
    method ReadHandshakeRecord() returns (r: Option<(byte, seq<byte>)>, ghost peak: nat)
      requires Valid()
      modifies this`hsBuf, this`trace, layer`input, layer`recvSeq, layer`recvProt
      ensures Live() && peak < BUFFER_LIMIT
      ensures match NextMessage(old(hsBuf), old(In()))
              case Failed(_) => r == None && trace == old(trace)
              case Msg(t, body, buf, src) =>
                && r == Some((t, body)) && |body| <= MAX_HANDSHAKE
                && hsBuf == buf && In() == src && Valid()
                && trace == old(trace) + [Received(t, body)]
    {
      hide FrontOf, RecordLayer.ReadOne, RecordLayer.Protector.Sound, Synced;
      peak := |hsBuf|;
      RestShorter(hsBuf);
      while true
        invariant Live() && trace == old(trace)
        invariant NextMessage(hsBuf, In()) == NextMessage(old(hsBuf), old(In()))
        invariant |hsBuf| <= peak < BUFFER_LIMIT
        invariant FrontOf(hsBuf).Complete? ==> |FrontOf(hsBuf).rest| < RecordLayer.MAX_PLAINTEXT
        decreases |layer.input|
      {
        match FrontOf(hsBuf)
        case TooLong => return None, peak;
        case Complete(t, body, rest) =>
          FrontIsEnvelope(hsBuf);
          SyncedSilent(layer.written, layer.Sending(), outs, trace, Received(t, body));
          trace := trace + [Received(t, body)];
          hsBuf := rest;
          return Some((t, body)), peak;
        case Incomplete =>
          IncompleteBound(hsBuf);
          ghost var src := In();
          var error, ct, payload := layer.ReadRecord();
          if error.Some? || ct != RecordLayer.HANDSHAKE {
            return None, peak;
          }
          assert In() == Source(src.Read().end, src.Read().rest);
          RestBound(hsBuf, payload);
          hsBuf := hsBuf + payload;
          peak := if |hsBuf| > peak then |hsBuf| else peak;
      }
    }

    /** Reads a message that must have type `t`, and parses it. */
    method Expect(t: byte) returns (m: Option<Message>, body: seq<byte>)
      requires Valid()
      modifies this`hsBuf, this`writes, this`trace, this`outs, this`alert, layer
      ensures m.Some? ==> Live() && Valid() && trace == old(trace) + [Received(t, body)] && ParseBody(t, body) == m
      ensures m.Some? ==> NextMessage(old(hsBuf), old(In())) == Msg(t, body, hsBuf, In())
      ensures m.None? ==> Ended() && writes > old(writes) && |trace| <= |old(trace)| + 2
      ensures m.None? ==> alert.value.desc == ExpectAlert(t, NextMessage(old(hsBuf), old(In())))
      ensures var n := NextMessage(old(hsBuf), old(In()));
              n.Msg? && n.t == t && ParseBody(t, n.body).Some? ==> m.Some?
      ensures writes >= old(writes)
    {
      hide NextMessage, ParseBody, Synced, RecordLayer.Protector.Sound;
      m, body := None, [];
      var r, _ := ReadHandshakeRecord();
      if r.None? {
        Fatal(HANDSHAKE_FAILURE);
        return;
      }
      if r.value.0 != t {
        Fatal(UNEXPECTED_MESSAGE);
        return;
      }
      body := r.value.1;
      m := ParseEnveloped(t, r.value.1);
      if m.None? {
        Fatal(if t == FINISHED then DECRYPT_ERROR else HANDSHAKE_FAILURE);
      }
    }

    // ---- Steps ------------------------------------------------------------

    method SendClientHello() returns (ok: bool)
      requires Valid() && InSync() && trace == []
      modifies this`writes, this`trace, this`outs, this`clientRandom, layer`written, layer`sendSeq, layer`sendProt,
               transcript
      ensures ok ==> Valid() && InSync() && env.random == Some(clientRandom)
      ensures ok ==> trace == [Sent(CLIENT_HELLO, Marshal(Hello(env, clientRandom)))]
      ensures !ok ==> trace == []
      ensures ok <==> CanGreet(env, old(writes))
      ensures writes >= old(writes)
      ensures ok ==> writes == old(writes) + 1
    {
      hide Marshal, Synced, Accepted, Hello, RecordLayer.Protector.Sound;
      if env.random.None? {
        return false;
      }
      clientRandom := env.random.value;
      HelloType(env, clientRandom);
      SyncedAtStart(layer.written, layer.Sending(), outs);
      ClearAccepts(env, writes, RecordLayer.HANDSHAKE, MarshalMessage(Hello(env, clientRandom)));
      ok := SendMessage(Hello(env, clientRandom));
    }

    method RecvServerHello() returns (ok: bool, body: seq<byte>)
      requires Valid() && InSync()
      modifies this`hsBuf, this`writes, this`trace, this`outs, this`alert, this`suite, this`serverRandom, layer,
               transcript
      ensures ok ==> Valid() && InSync() && trace == old(trace) + [Received(SERVER_HELLO, body)]
      ensures ok ==> suite.Some? && suite.value.prf.Sound()
      ensures ok ==> ServerHelloChoice(env, body) == Some(Choice(suite.value, serverRandom))
      ensures !ok ==> Ended() && writes > old(writes) && |trace| <= |old(trace)| + 2
      ensures !ok ==> alert.value.desc == ServerHelloAlert(env, NextMessage(old(hsBuf), old(In())))
      ensures ok ==> NextMessage(old(hsBuf), old(In())) == Msg(SERVER_HELLO, body, hsBuf, In())
      ensures var n := NextMessage(old(hsBuf), old(In()));
              n.Msg? && n.t == SERVER_HELLO && ServerHelloChoice(env, n.body).Some? ==> ok
      ensures writes >= old(writes)
    {
      hide ParseBody, Envelopes, T.AppendAll, Envelope, NextMessage, Synced, RecordLayer.Protector.Sound;
      ok := false;
      var m;
      ghost var before := trace;
      m, body := Expect(SERVER_HELLO);
      if m.None? {
        return;
      }
      ParsedType(SERVER_HELLO, body);
      var sh := m.value;
      if sh.version != TLS12 {
        Fatal(PROTOCOL_VERSION);
        return;
      }
      if sh.suite !in env.offered {
        Fatal(ILLEGAL_PARAMETER);
        return;
      }
      suite := env.lookup(sh.suite);
      if suite.None? {
        Fatal(ILLEGAL_PARAMETER);
        return;
      }
      if sh.compression != 0 {
        Fatal(ILLEGAL_PARAMETER);
        return;
      }
      if sh.ems {
        Fatal(UNSUPPORTED_EXTENSION);
        return;
      }
      for i := 0 to |sh.extTypes|
        invariant forall j :: 0 <= j < i ==> OfferedExt(env, sh.extTypes[j])
        invariant Valid() && trace == before + [Received(SERVER_HELLO, body)]
      {
        if !OfferedExt(env, sh.extTypes[i]) {
          Fatal(UNSUPPORTED_EXTENSION);
          return;
        }
      }
      serverRandom := sh.random;
      WriteTranscript(SERVER_HELLO, body, before);
      ok := true;
    }

    method RecvCertificate() returns (ok: bool, chain: seq<seq<byte>>, body: seq<byte>)
      requires Valid() && InSync()
      modifies this`hsBuf, this`writes, this`trace, this`outs, this`alert, layer, transcript
      ensures ok ==> Valid() && InSync() && trace == old(trace) + [Received(CERTIFICATE, body)]
      ensures ok ==> ChainOf(env, body) == Some(chain)
      ensures !ok ==> Ended() && writes > old(writes) && |trace| <= |old(trace)| + 2
      ensures !ok ==> alert.value.desc == CertificateAlert(NextMessage(old(hsBuf), old(In())))
      ensures ok ==> NextMessage(old(hsBuf), old(In())) == Msg(CERTIFICATE, body, hsBuf, In())
      ensures var n := NextMessage(old(hsBuf), old(In()));
              n.Msg? && n.t == CERTIFICATE && ChainOf(env, n.body).Some? ==> ok
      ensures writes >= old(writes)
    {
      hide ParseBody, Envelopes, T.AppendAll, Envelope, NextMessage, Synced, RecordLayer.Protector.Sound;
      ok, chain := false, [];
      var m;
      ghost var before := trace;
      m, body := Expect(CERTIFICATE);
      if m.None? {
        return;
      }
      ParsedType(CERTIFICATE, body);
      chain := m.value.certs;
      if chain == [] {
        Fatal(BAD_CERTIFICATE);
        return;
      }
      if !env.verifyChain(chain) {
        Fatal(BAD_CERTIFICATE);
        return;
      }
      WriteTranscript(CERTIFICATE, body, before);
      ok := true;
    }

    /** Checks the signature of a ServerKeyExchange and returns the parameters
        in front of it. */
    method VerifyServerKeyExchange(body: seq<byte>, chain: seq<seq<byte>>) returns (params: Option<seq<byte>>)
      requires Live() && suite.Some?
      modifies this`writes, this`trace, this`outs, this`alert, layer`written, layer`sendSeq, layer`sendProt
      ensures params.Some? ==> unchanged(this, layer)
      ensures params == SkeParams(env, suite.value, clientRandom, serverRandom, chain, body)
      ensures params.Some? ==> Signed(env, suite.value, clientRandom, serverRandom, chain, body, params.value)
      ensures params.None? ==> !exists p :: Signed(env, suite.value, clientRandom, serverRandom, chain, body, p)
      ensures params.Some? ==> trace == old(trace) && NeedsSke(suite.value.kx)
      ensures params.None? ==> Ended() && writes > old(writes) && |trace| <= |old(trace)| + 1
      ensures params.None? ==> alert.value.desc == SkeAlert(suite.value, body)
      ensures writes >= old(writes)
    {
      hide SplitEcdhe, SplitDhe, RecordLayer.Protector.Sound, Signed;
      forall p {
        SkeParamsIff(env, suite.value, clientRandom, serverRandom, chain, body, p);
      }
      params := None;
      var split := SplitSke(suite.value.kx, body);
      if split.None? {
        Fatal(HANDSHAKE_FAILURE);
        return;
      }
      var SignedParams(p, alg, signature) := split.value;
      if alg !in ADVERTISED {
        Fatal(ILLEGAL_PARAMETER);
        return;
      }
      if !SigMatchesAuth(alg.sig, suite.value.auth) {
        Fatal(ILLEGAL_PARAMETER);
        return;
      }
      if !env.verifySig(chain, alg, clientRandom + serverRandom + p, signature) {
        Fatal(DECRYPT_ERROR);
        return;
      }
      params := Some(p);
    }

    /** An optional ServerKeyExchange, an optional CertificateRequest behind it,
        and ServerHelloDone, each at most once. If the flight of run `x` comes
        next, it is read. */
    method RecvServerFlight(chain: seq<seq<byte>>, ghost x: Run, ghost buf': seq<byte>, ghost src': Source)
      returns (ok: bool, params: Option<seq<byte>>, ghost ske: Option<seq<byte>>, ghost request: Option<seq<byte>>)
      requires Valid() && InSync() && suite.Some? && certReq == None
      modifies this`hsBuf, this`writes, this`trace, this`outs, this`alert, this`certReq, layer, transcript
      ensures ok ==> Valid() && InSync() && trace == old(trace) + ServerFlight(ske, request)
      ensures ok ==> Takes(old(hsBuf), old(In()), FlightMessages(ske, request), hsBuf, In())
      ensures ok ==> (ske.Some? <==> NeedsSke(suite.value.kx)) && (params.Some? <==> ske.Some?)
      ensures ok && ske.Some? ==>
                SkeParams(env, suite.value, clientRandom, serverRandom, chain, ske.value) == params
      ensures ok ==> (certReq.Some? <==> request.Some?)
      ensures ok && request.Some? ==> ParseBody(CERTIFICATE_REQUEST, request.value) == certReq
      ensures !ok ==> Ended() && writes > old(writes) && |trace| <= |old(trace)| + 5
      ensures Expected(x, chain) && Takes(old(hsBuf), old(In()), FlightMessages(x.ske, x.request), buf', src') ==>
                ok && ske == x.ske && request == x.request && hsBuf == buf' && In() == src'
      ensures writes >= old(writes)
    {
      hide ParseBody, Envelopes, T.AppendAll, Envelope, NextMessage, SkeParams, Takes, Left, FlightMessages, SoFarTaken,
           ServerHelloChoice, ChainOf, Synced, RecordLayer.Protector.Sound, Valid, InSync, Live, Ended, ServerFlight,
           FlightSoFar, ServerSideGood;
      ok, params, ske, request := false, None, None, None;
      LeftAtFirst(x);
      TakesNone(hsBuf, In());
      TraceStart(trace);
      ExpectedFlight(env, x);
      ghost var good := Expected(x, chain) && Takes(hsBuf, In(), FlightMessages(x.ske, x.request), buf', src');
      var sawSKE, sawCertReq := false, false;
      while true
        invariant Valid() && InSync() && writes >= old(writes)
        invariant trace == old(trace) + FlightSoFar(ske, request)
        invariant Takes(old(hsBuf), old(In()), SoFarTaken(ske, request), hsBuf, In())
        invariant sawSKE == ske.Some? == params.Some? && sawCertReq == request.Some? == certReq.Some?
        invariant ske.Some? ==> NeedsSke(suite.value.kx)
        invariant ske.Some? ==> SkeParams(env, suite.value, clientRandom, serverRandom, chain, ske.value) == params
        invariant request.Some? ==> ParseBody(CERTIFICATE_REQUEST, request.value) == certReq
        invariant good ==> Takes(hsBuf, In(), Left(x, sawSKE, sawCertReq), buf', src')
        invariant good ==> (sawSKE || sawCertReq ==> ske == x.ske) && (sawCertReq ==> request == x.request)
        decreases (if sawSKE then 0 else 1) + (if sawCertReq then 0 else 1)
      {
        ghost var buf, src := hsBuf, In();
        if good {
          LeftNext(x, sawSKE, sawCertReq);
          TakesNext(hsBuf, In(), Left(x, sawSKE, sawCertReq), buf', src');
        }
        var step := RecvFlightMessage(chain, sawSKE, sawCertReq);
        FlightShort(ske, request);
        if step.Refused? {
          return;
        }
        TakesMore(old(hsBuf), old(In()), ske, request, buf, src, StepType(step), step.body, hsBuf, In());
        TraceMore(old(trace), ske, request, Received(StepType(step), step.body));
        match step
        case TookSke(body, p) =>
          sawSKE, params, ske := true, Some(p), Some(body);
        case TookRequest(body) =>
          sawCertReq, request := true, Some(body);
        case TookDone(_) =>
          break;
      }
      if !sawSKE && NeedsSke(suite.value.kx) {
        Fatal(UNEXPECTED_MESSAGE);
        return;
      }
      ok := true;
    }

    /** One message of the flight, which must be allowed at this point. */
    method RecvFlightMessage(chain: seq<seq<byte>>, sawSKE: bool, sawCertReq: bool) returns (step: FlightStep)
      requires Valid() && InSync() && suite.Some?
      modifies this`hsBuf, this`writes, this`trace, this`outs, this`alert, this`certReq, layer, transcript
      ensures step.Refused? ==> Ended() && writes > old(writes) && |trace| <= |old(trace)| + 2
      ensures var n := NextMessage(old(hsBuf), old(In()));
              step.Refused? ==> alert.value.desc == FlightAlert(suite.value, n, sawSKE, sawCertReq)
      ensures !step.Refused? ==>
                && Valid() && InSync() && trace == old(trace) + [Received(StepType(step), step.body)]
                && NextMessage(old(hsBuf), old(In())) == Msg(StepType(step), step.body, hsBuf, In())
      ensures step.TookSke? ==>
                && !sawSKE && !sawCertReq && certReq == old(certReq) && NeedsSke(suite.value.kx)
                && SkeParams(env, suite.value, clientRandom, serverRandom, chain, step.body) == Some(step.params)
      ensures step.TookRequest? ==> !sawCertReq && certReq.Some? && ParseBody(CERTIFICATE_REQUEST, step.body) == certReq
      ensures step.TookDone? ==> step.body == [] && certReq == old(certReq)
      ensures var n := NextMessage(old(hsBuf), old(In()));
              n.Msg? && (|| (n.t == SERVER_KEY_EXCHANGE && !sawSKE && !sawCertReq
                             && SkeParams(env, suite.value, clientRandom, serverRandom, chain, n.body).Some?)
                         || (n.t == CERTIFICATE_REQUEST && !sawCertReq && ParseBody(CERTIFICATE_REQUEST, n.body).Some?)
                         || (n.t == SERVER_HELLO_DONE && n.body == []))
              ==> !step.Refused?
      ensures writes >= old(writes)
    {
      hide ParseBody, Envelopes, T.AppendAll, Envelope, NextMessage, SkeParams, Synced, RecordLayer.Protector.Sound,
           Valid, SkeAlert;
      step := Refused;
      ghost var before := trace;
      var r, _ := ReadHandshakeRecord();
      if r.None? {
        Fatal(HANDSHAKE_FAILURE);
        return;
      }
      var (t, body) := r.value;
      if t == SERVER_KEY_EXCHANGE {
        if sawSKE {
          Fatal(UNEXPECTED_MESSAGE);
          return;
        }
        if sawCertReq {
          Fatal(UNEXPECTED_MESSAGE);
          return;
        }
        var params := TakeServerKeyExchange(body, chain, before);
        if params.Some? {
          step := TookSke(body, params.value);
        }
      } else if t == CERTIFICATE_REQUEST {
        if sawCertReq {
          Fatal(UNEXPECTED_MESSAGE);
          return;
        }
        TakeCertificateRequest(body, before);
        if certReq.Some? {
          step := TookRequest(body);
        }
      } else if t == SERVER_HELLO_DONE {
        var m := ParseEnveloped(SERVER_HELLO_DONE, body);
        DoneIsEmpty(body);
        if m.None? {
          Fatal(HANDSHAKE_FAILURE);
          return;
        }
        WriteTranscript(SERVER_HELLO_DONE, body, before);
        step := TookDone(body);
      } else {
        Fatal(UNEXPECTED_MESSAGE);
      }
    }

    method TakeServerKeyExchange(body: seq<byte>, chain: seq<seq<byte>>, ghost before: seq<Event>)
      returns (params: Option<seq<byte>>)
      requires Live() && suite.Some? && transcript.St() == T.AppendAll(Envelopes(before))
      requires trace == before + [Received(SERVER_KEY_EXCHANGE, body)]
      modifies this`writes, this`trace, this`outs, this`alert, layer`written, layer`sendSeq, layer`sendProt, transcript
      ensures params.Some? ==> unchanged(this, layer)
      ensures params == SkeParams(env, suite.value, clientRandom, serverRandom, chain, body)
      ensures params.Some? ==> trace == old(trace) && InSync() && NeedsSke(suite.value.kx)
      ensures params.None? ==> Ended() && writes > old(writes) && |trace| <= |old(trace)| + 1
      ensures params.None? ==> alert.value.desc == SkeAlert(suite.value, body)
      ensures writes >= old(writes)
    {
      hide ParseBody, Envelopes, T.AppendAll, Envelope, SkeParams, RecordLayer.Protector.Sound, Signed, SkeAlert;
      SkeParses(body);
      WriteTranscript(SERVER_KEY_EXCHANGE, body, before);
      params := VerifyServerKeyExchange(body, chain);
    }

    method TakeCertificateRequest(body: seq<byte>, ghost before: seq<Event>)
      requires Live() && transcript.St() == T.AppendAll(Envelopes(before)) && |body| <= MAX_HANDSHAKE
      requires trace == before + [Received(CERTIFICATE_REQUEST, body)]
      modifies this`writes, this`trace, this`outs, this`alert, this`certReq, layer`written, layer`sendSeq,
               layer`sendProt, transcript
      ensures certReq.Some? ==> unchanged(layer) && outs == old(outs)
      ensures certReq == ParseBody(CERTIFICATE_REQUEST, body)
      ensures certReq.Some? ==> trace == old(trace) && InSync()
      ensures certReq.None? ==> Ended() && writes > old(writes) && |trace| <= |old(trace)| + 1
      ensures certReq.None? ==> alert.value.desc == 40
      ensures writes >= old(writes)
    {
      hide ParseBody, Envelopes, T.AppendAll, Envelope, RecordLayer.Protector.Sound;
      certReq := ParseEnveloped(CERTIFICATE_REQUEST, body);
      if certReq.None? {
        Fatal(HANDSHAKE_FAILURE);
        return;
      }
      WriteTranscript(CERTIFICATE_REQUEST, body, before);
    }

    /** The handshake so far and the certificates are those of run `x`. */
    ghost predicate Expected(x: Run, chain: seq<seq<byte>>)
      reads this
    {
      && suite == Some(x.suite) && clientRandom == x.random && serverRandom == x.serverRandom && chain == x.chain
      && ServerSideGood(env, x)
    }

    /** The first advertised algorithm that the server supports and the key can
        use. */
    method SelectClientSigAlg() returns (alg: Option<SigAndHash>)
      ensures alg.Some? ==> Preferred(alg.value, certReq, env.certs)
      ensures alg.None? ==> NoneUsable(certReq, env.certs)
    {
      if certReq.None? || !certReq.value.CertificateRequest? || |env.certs| == 0 {
        return None;
      }
      var key := env.certs[0].key;
      for i := 0 to |ADVERTISED|
        invariant forall j :: 0 <= j < i ==> !Usable(ADVERTISED[j], certReq, env.certs)
      {
        if ADVERTISED[i] in certReq.value.algs && KeyCompatible(ADVERTISED[i], key) {
          return Some(ADVERTISED[i]);
        }
      }
      alg := None;
    }

    /** Sends a Certificate, empty unless some algorithm can be used; `sent`
        says that it was not empty. */
    method SendClientCertificate() returns (ok: bool, sent: bool)
      requires Valid() && InSync()
      modifies this`writes, this`trace, this`outs, this`alert, layer`written, layer`sendSeq, layer`sendProt, transcript
      ensures ok ==> Valid() && InSync() && trace == old(trace) + OptSent(Some(CertificateFor(env, sent)))
      ensures sent ==> env.certs != [] && exists alg :: Preferred(alg, certReq, env.certs)
      ensures !sent ==> NoneUsable(certReq, env.certs)
      ensures !ok ==> Ended() && writes > old(writes) && |trace| <= |old(trace)| + 1
      ensures !ok ==> alert.value.desc == 80
      ensures env.Unfailing() && FitsRecord(CertificateFor(env, sent)) && |old(trace)| <= MAX_EVENTS ==> ok
      ensures writes >= old(writes)
    {
      hide Marshal, Envelopes, T.AppendAll, Synced, Accepted, RecordLayer.Protector.Sound, FitsRecord;
      var alg := SelectClientSigAlg();
      var m := if alg.None? || |env.certs| == 0 then Certificate([]) else Certificate([env.certs[0].raw]);
      sent := alg.Some? && |env.certs| > 0;
      ok := SendMessage(m);
      if !ok {
        Fatal(INTERNAL_ERROR);
      }
    }

    /** Signs the transcript as it stands before this message. */
    method SendCertificateVerify(alg: SigAndHash) returns (ok: bool, ghost m: Message)
      requires Valid() && InSync() && env.certs != []
      modifies this`writes, this`trace, this`outs, this`alert, layer`written, layer`sendSeq, layer`sendProt, transcript
      ensures ok ==> Valid() && InSync() && trace == old(trace) + OptSent(Some(m))
      ensures ok ==> m.CertificateVerify? && m.alg == alg
      ensures ok ==> env.sign(env.certs[0].key, alg, env.digest(alg.hash, HashedBytes(old(trace)))) == Some(m.signature)
      ensures !ok ==> Ended() && writes > old(writes) && |trace| <= |old(trace)| + 1
      ensures !ok ==> alert.value.desc == 80
      ensures var signature := env.sign(env.certs[0].key, alg, env.digest(alg.hash, HashedBytes(old(trace))));
              (&& env.Unfailing() && KnownHash(alg.hash) && |HashedBytes(old(trace))| <= T.MAX_TRANSCRIPT
               && |old(trace)| <= MAX_EVENTS
               && signature.Some? && FitsRecord(CertificateVerify(alg, signature.value)))
              ==> ok
      ensures writes >= old(writes)
    {
      hide Marshal, Envelopes, T.AppendAll, Synced, Accepted, RecordLayer.Protector.Sound, FitsRecord;
      ok, m := false, HelloRequest;
      if !KnownHash(alg.hash) {
        Fatal(INTERNAL_ERROR);
        return;
      }
      var digest := transcript.Sum(Some(b => env.digest(alg.hash, b)));
      T.AppendAllIsConcatenation(Envelopes(trace));
      if digest.None? {
        Fatal(INTERNAL_ERROR);
        return;
      }
      var signature := env.sign(env.certs[0].key, alg, digest.value);
      if signature.None? {
        Fatal(INTERNAL_ERROR);
        return;
      }
      var cv := CertificateVerify(alg, signature.value);
      m := cv;
      ok := SendMessage(cv);
      if !ok {
        Fatal(INTERNAL_ERROR);
      }
    }

    /** A Finished value over the transcript as it stands. */
    method FinishedValue(master: seq<byte>, tlsLabel: seq<byte>) returns (vd: Option<seq<byte>>)
      requires suite.Some? && suite.value.prf.Sound() && InSync() && tlsLabel != []
      ensures vd.Some? ==>
                FinishedVerifyData(suite.value, master, tlsLabel, suite.value.prf.digest(HashedBytes(trace))) == vd
      ensures vd.None? <==> |HashedBytes(trace)| > T.MAX_TRANSCRIPT
    {
      hide Envelopes, T.AppendAll, StreamPrefix;
      var digest := transcript.Sum(Some(suite.value.prf.digest));
      T.AppendAllIsConcatenation(Envelopes(trace));
      if digest.None? {
        return None;
      }
      vd := FinishedVerifyData(suite.value, master, tlsLabel, digest.value);
    }

    /** The protector is installed right behind the ChangeCipherSpec. */
    method SendCcs(sendProt: RecordLayer.Protector) returns (ok: bool)
      requires Valid() && InSync() && sendProt.Sound()
      modifies this`writes, this`trace, this`outs, this`alert, layer`written, layer`sendSeq, layer`sendProt,
               layer`recvSeq, layer`recvProt
      ensures ok ==> Valid() && InSync() && trace == old(trace) + [SentCcs] + [InstalledSend(sendProt)]
      ensures ok ==> In() == old(In())
      ensures !ok ==> Ended() && writes > old(writes) && |trace| <= |old(trace)| + 1
      ensures !ok ==> alert.value.desc == 80
      ensures env.Unfailing() && |old(trace)| <= MAX_EVENTS ==> ok
      ensures writes >= old(writes)
    {
      hide Envelopes, T.AppendAll, Synced, Accepted, RecordLayer.Protector.Sound;
      UnfailingAccepts(env, writes, layer.Sending(), RecordLayer.CCS, [1]);
      Silent(trace, SentCcs);
      Silent(trace + [SentCcs], InstalledSend(sendProt));
      ok := WriteRecord(RecordLayer.CCS, [1], SentCcs);
      if !ok {
        Fatal(INTERNAL_ERROR);
        return;
      }
      SyncedSwap(layer.written, layer.Sending(), outs, trace, sendProt);
      layer.ChangeCipherSpec(Some(sendProt), None);
      trace, outs := trace + [InstalledSend(sendProt)], outs + [RecordLayer.Swap(sendProt)];
    }

    method ReceiveCcs(recvProt: RecordLayer.Protector) returns (ok: bool)
      requires Valid() && InSync() && recvProt.Sound()
      modifies this`writes, this`trace, this`outs, this`alert, layer
      ensures ok ==> Valid() && InSync() && trace == old(trace) + [ReceivedCcs] + [InstalledRecv(recvProt)]
      ensures !ok ==> Ended() && writes > old(writes) && |trace| <= |old(trace)| + 1
      ensures !ok ==> alert.value.desc == if old(In()).Read().NoRecord? then 40 else 10
      ensures ok <==> AtCcs(old(In()))
      ensures ok ==> In() == BehindCcs(old(In()), recvProt)
      ensures writes >= old(writes)
    {
      hide Envelopes, T.AppendAll, Synced, RecordLayer.ReadOne, RecordLayer.Protector.Sound;
      ok := false;
      var error, ct, payload := layer.ReadRecord();
      if error.Some? {
        Fatal(HANDSHAKE_FAILURE);
        return;
      }
      if ct != RecordLayer.CCS {
        Fatal(UNEXPECTED_MESSAGE);
        return;
      }
      if payload != [1] {
        Fatal(UNEXPECTED_MESSAGE);
        return;
      }
      layer.ChangeCipherSpec(None, Some(recvProt));
      Silent(trace, ReceivedCcs);
      Silent(trace + [ReceivedCcs], InstalledRecv(recvProt));
      SyncedSilent(layer.written, layer.Sending(), outs, trace, ReceivedCcs);
      SyncedSilent(layer.written, layer.Sending(), outs, trace + [ReceivedCcs], InstalledRecv(recvProt));
      trace := trace + [ReceivedCcs];
      trace := trace + [InstalledRecv(recvProt)];
      ok := true;
    }

    /** The server's Finished must match the transcript before it, and no
        handshake bytes may follow it in its record. */
    method ReceiveServerFinished(master: seq<byte>, recvProt: RecordLayer.Protector, ghost x: seq<byte>,
                                 ghost after: Source)
      returns (ok: bool, vd: seq<byte>)
      requires Valid() && InSync() && suite.Some? && suite.value.prf.Sound() && hsBuf == [] && recvProt.Sound()
      modifies this`hsBuf, this`writes, this`trace, this`outs, this`alert, layer, transcript
      ensures ok ==> Valid() && InSync() && hsBuf == []
      ensures ok ==> trace == old(trace) + [ReceivedCcs] + [InstalledRecv(recvProt)] + [Received(FINISHED, vd)]
      ensures ok ==> AtCcs(old(In()))
                     && NextMessage([], BehindCcs(old(In()), recvProt)) == Msg(FINISHED, vd, [], In())
      ensures ok ==> FinishedVerifyData(suite.value, master, SERVER_FINISHED_LABEL,
                       suite.value.prf.digest(HashedBytes(old(trace) + [ReceivedCcs] + [InstalledRecv(recvProt)])))
                     == Some(vd)
      ensures !ok ==> Ended() && writes > old(writes) && |trace| <= |old(trace)| + 5
      ensures var hashed := HashedBytes(old(trace) + [ReceivedCcs] + [InstalledRecv(recvProt)]);
              !ok ==> alert.value.desc == FinishedAlert(old(In()), recvProt, suite.value, master, hashed)
      ensures var hashed := HashedBytes(old(trace) + [ReceivedCcs] + [InstalledRecv(recvProt)]);
              AtCcs(old(In())) && NextMessage([], BehindCcs(old(In()), recvProt)) == Msg(FINISHED, x, [], after)
              && |hashed| <= T.MAX_TRANSCRIPT
              && FinishedVerifyData(suite.value, master, SERVER_FINISHED_LABEL, suite.value.prf.digest(hashed))
                 == Some(x)
              ==> ok && vd == x && In() == after
      ensures writes >= old(writes)
    {
      hide ParseBody, Envelopes, T.AppendAll, Envelope, StreamPrefix, NextMessage, Synced, RecordLayer.ReadOne,
           RecordLayer.Protector.Sound;
      vd := [];
      ok := ReceiveCcs(recvProt);
      if !ok {
        return;
      }
      ok := false;
      ghost var before := trace;
      var expected := FinishedValue(master, SERVER_FINISHED_LABEL);
      FinishedParses(x);
      var m, body := Expect(FINISHED);
      if m.None? {
        return;
      }
      FinishedBody(body);
      if expected.None? {
        Fatal(INTERNAL_ERROR);
        return;
      }
      if m.value.verifyData != expected.value {
        Fatal(DECRYPT_ERROR);
        return;
      }
      if hsBuf != [] {
        Fatal(UNEXPECTED_MESSAGE);
        return;
      }
      vd := body;
      WriteTranscript(FINISHED, body, before);
      ok := true;
    }

    /** Step 7.5: a Certificate, if one was requested. */
    method AnswerRequest() returns (ok: bool, ghost clientCert: Option<Message>)
      requires Valid() && InSync() && !clientCertSent
      modifies this`writes, this`trace, this`outs, this`alert, this`clientCertSent, this`clientSigAlg, layer`written,
               layer`sendSeq, layer`sendProt, transcript
      ensures ok ==> Valid() && InSync() && trace == old(trace) + OptSent(clientCert)
      ensures ok ==> (clientCert.Some? <==> certReq.Some?)
      ensures ok && clientCert.Some? ==> clientCert.value == CertificateFor(env, clientCertSent)
      ensures clientCertSent ==> env.certs != [] && certReq.Some? && Preferred(clientSigAlg, certReq, env.certs)
      ensures clientCertSent ==> !NoneUsable(certReq, env.certs)
      ensures ok && !clientCertSent ==> certReq.None? || NoneUsable(certReq, env.certs)
      ensures !ok ==> Ended() && writes > old(writes) && |trace| <= |old(trace)| + 1
      ensures !ok ==> alert.value.desc == 80
      ensures env.Unfailing() && |old(trace)| <= MAX_EVENTS
              && (forall sent :: certReq.Some? && (sent <==> !NoneUsable(certReq, env.certs)) ==>
                    FitsRecord(CertificateFor(env, sent)))
              ==> ok
      ensures writes >= old(writes)
    {
      hide Envelopes, T.AppendAll, Marshal, Preferred, NoneUsable, FitsRecord, Synced, Accepted,
           RecordLayer.Protector.Sound, Valid, InSync, Live, Ended;
      ok, clientCert := true, None;
      if certReq.Some? {
        var alg := SelectClientSigAlg();
        var sent;
        ok, sent := SendClientCertificate();
        if sent {
          ghost var other :| Preferred(other, certReq, env.certs);
          PreferredOrNone(other, certReq, env.certs);
        }
        if !ok {
          return;
        }
        clientCert := Some(CertificateFor(env, sent));
        if sent {
          clientCertSent := true;
          clientSigAlg := alg.value;
        }
      }
    }

    /** Steps 7.5 to 8.5: the optional Certificate, the ClientKeyExchange and the
        optional CertificateVerify. */
    method SendClientFlight(cke: seq<byte>, ghost x: Run)
      returns (ok: bool, ghost clientCert: Option<Message>, ghost certVerify: Option<Message>)
      requires Valid() && InSync() && !clientCertSent
      modifies this`writes, this`trace, this`outs, this`alert, this`clientCertSent, this`clientSigAlg, layer`written,
               layer`sendSeq, layer`sendProt, transcript
      ensures ok ==> Valid() && InSync()
      ensures ok ==> trace == old(trace) + OptSent(clientCert) + [Sent(CLIENT_KEY_EXCHANGE, cke)] + OptSent(certVerify)
      ensures ok ==> (clientCert.Some? <==> certReq.Some?)
      ensures ok && clientCert.Some? ==> clientCert.value == CertificateFor(env, certVerify.Some?)
      ensures ok && certVerify.None? ==> certReq.None? || NoneUsable(certReq, env.certs)
      ensures ok && certVerify.Some? ==>
                && certVerify.value.CertificateVerify? && env.certs != []
                && Preferred(certVerify.value.alg, certReq, env.certs)
                && env.sign(env.certs[0].key, certVerify.value.alg, env.digest(certVerify.value.alg.hash,
                     HashedBytes(old(trace) + OptSent(clientCert) + [Sent(CLIENT_KEY_EXCHANGE, cke)])))
                   == Some(certVerify.value.signature)
      ensures !ok ==> Ended() && writes > old(writes) && |trace| <= |old(trace)| + 4
      ensures !ok ==> alert.value.desc == 80
      ensures x.exchange.cke == cke && x.certReq == certReq && GoodClientAuth(env, x) && NoLocalFailure(env, x)
              && old(trace) == FirstFlight(env, x) + ServerFlight(x.ske, x.request)
              ==> ok && clientCert == x.clientCert && certVerify == x.certVerify
      ensures writes >= old(writes)
    {
      hide Envelopes, T.AppendAll, Marshal, Preferred, NoneUsable, HashedBytes, ParseBody, FitsRecord, Synced, Accepted,
           RecordLayer.Protector.Sound, Valid, InSync, GoodClientAuth, NoLocalFailure, FirstFlight, ServerFlight,
           UpToKeyExchange, CertificateFor, Live, Ended;
      ghost var good := x.exchange.cke == cke && x.certReq == certReq && GoodClientAuth(env, x)
        && NoLocalFailure(env, x) && trace == FirstFlight(env, x) + ServerFlight(x.ske, x.request);
      if good {
        ClientAuthDecided(env, x);
      }
      certVerify := None;
      ok, clientCert := AnswerRequest();
      if !ok {
        return;
      }
      CkeMarshals(cke);
      ok := SendMessage(ClientKeyExchange(cke));
      if !ok {
        Fatal(INTERNAL_ERROR);
        return;
      }
      if clientCertSent {
        ghost var m;
        ok, m := SendCertificateVerify(clientSigAlg);
        if !ok {
          return;
        }
        certVerify := Some(m);
      }
    }

    /** Steps 1 to 3: up to the server's Certificate. */
    method GreetServer() returns (ok: bool, chain: seq<seq<byte>>, ghost shBody: seq<byte>, ghost certBody: seq<byte>,
                                  ghost buf: seq<byte>, ghost src: Source)
      requires Valid() && InSync() && trace == [] && hsBuf == []
      modifies this`hsBuf, this`writes, this`trace, this`outs, this`alert, this`clientRandom, this`serverRandom,
               this`suite, layer, transcript
      ensures ok ==> Valid() && InSync() && suite.Some? && suite.value.prf.Sound() && env.random == Some(clientRandom)
      ensures ok ==> trace == [Sent(CLIENT_HELLO, Marshal(Hello(env, clientRandom))),
                               Received(SERVER_HELLO, shBody), Received(CERTIFICATE, certBody)]
      ensures ok ==> ServerHelloChoice(env, shBody) == Some(Choice(suite.value, serverRandom))
      ensures ok ==> ChainOf(env, certBody) == Some(chain)
      ensures ok ==> NextMessage([], old(In())) == Msg(SERVER_HELLO, shBody, buf, src)
      ensures ok ==> src.Sound() && NextMessage(buf, src) == Msg(CERTIFICATE, certBody, hsBuf, In())
      ensures !ok && trace == [] <==> !CanGreet(env, old(writes))
      ensures !CanGreet(env, old(writes)) ==> alert == old(alert)
      ensures !ok && CanGreet(env, old(writes)) ==> Ended() && writes >= old(writes) + 2 && |trace| <= 5
      ensures var a := NextMessage([], old(In()));
              (&& CanGreet(env, old(writes))
               && a.Msg? && a.t == SERVER_HELLO && ServerHelloChoice(env, a.body).Some?
               && var b := NextMessage(a.buf, a.src); b.Msg? && b.t == CERTIFICATE && ChainOf(env, b.body).Some?)
              ==> ok
      ensures ok ==> writes > old(writes)
      ensures writes >= old(writes)
    {
      hide Envelopes, T.AppendAll, Marshal, Hello, ServerHelloChoice, ChainOf, ParseBody, NextMessage, Synced,
           RecordLayer.Protector.Sound, CanGreet, Valid, InSync, Live, Ended;
      chain, shBody, certBody, buf, src := [], [], [], [], In();
      ok := SendClientHello();
      if !ok {
        return;
      }
      ok, shBody := RecvServerHello();
      if !ok {
        return;
      }
      buf, src := hsBuf, In();
      ok, chain, certBody := RecvCertificate();
    }

    /** Steps 1 to 4: up to ServerHelloDone. */
    method ServerPhase(ghost x: Run, ghost src': Source)
      returns (ok: bool, chain: seq<seq<byte>>, params: Option<seq<byte>>, ghost r: Run)
      requires Valid() && InSync() && trace == [] && certReq == None && hsBuf == []
      modifies this`hsBuf, this`writes, this`trace, this`outs, this`alert, this`clientRandom, this`serverRandom,
               this`suite, this`certReq, layer, transcript
      ensures ok ==> Valid() && InSync() && suite.Some? && suite.value.prf.Sound()
      ensures ok ==> trace == FirstFlight(env, r) + ServerFlight(r.ske, r.request)
      ensures ok ==> SoFar(r, chain, params) && Takes([], old(In()), ServerMessages(r), hsBuf, In())
      ensures !ok && trace == [] <==> !CanGreet(env, old(writes))
      ensures !CanGreet(env, old(writes)) ==> alert == old(alert)
      ensures !ok && CanGreet(env, old(writes)) ==> Ended() && writes >= old(writes) + 2 && |trace| <= 10
      ensures (&& ServerSideGood(env, x) && CanGreet(env, old(writes))
               && Takes([], old(In()), ServerMessages(x), [], src')) ==>
                ok && hsBuf == [] && In() == src' && SameServerSide(r, x)
      ensures ok ==> writes > old(writes)
      ensures writes >= old(writes)
    {
      hide Envelopes, T.AppendAll, Marshal, Hello, ServerHelloChoice, ChainOf, SkeParams, ParseBody, Takes, NextMessage,
           FlightMessages, ServerMessages, Synced, RecordLayer.Protector.Sound, CanGreet, Valid, InSync, NoRun,
           ServerFlight, Live, Ended;
      ghost var s0 := In();
      params, r := None, NoRun();
      FirstTaken(s0, x, src');
      ghost var shBody, certBody, b1, s1;
      ok, chain, shBody, certBody, b1, s1 := GreetServer();
      if !ok {
        return;
      }
      ghost var b2, s2 := hsBuf, In();
      ghost var ske, request;
      ok, params, ske, request := RecvServerFlight(chain, x, [], src');
      if ok {
        r := ServerRun(clientRandom, shBody, suite.value, serverRandom, certBody, chain, ske, params, request, certReq);
        AllFirstTaken(s0, b1, s1, b2, s2, r, hsBuf, In());
      }
    }

    /** Steps 5 to 7: key exchange, master secret and protectors. */
    method KeyPhase(chain: seq<seq<byte>>, params: Option<seq<byte>>, ghost x: Run) returns (secrets: Option<Secrets>)
      requires Live() && suite.Some? && suite.value.prf.Sound()
      modifies this`writes, this`trace, this`outs, this`alert, layer`written, layer`sendSeq, layer`sendProt
      ensures secrets.Some? ==> unchanged(this, layer)
      ensures secrets.Some? ==> env.keyExchange(suite.value, chain, params) == Some(secrets.value.exchange)
      ensures secrets.Some? ==>
                MasterSecret(suite.value, secrets.value.exchange.preMaster, clientRandom, serverRandom)
                == Some(secrets.value.master)
      ensures secrets.Some? ==> GoodSecrets(env, suite.value, clientRandom, serverRandom, secrets.value)
      ensures secrets.None? ==> Ended() && writes > old(writes) && |trace| <= |old(trace)| + 1
      ensures secrets.None? ==>
                alert.value.desc == if env.keyExchange(suite.value, chain, params).None? then 40 else 80
      ensures suite == Some(x.suite) && clientRandom == x.random && serverRandom == x.serverRandom
              && env.keyExchange(x.suite, chain, params) == Some(x.exchange)
              && MasterSecret(x.suite, x.exchange.preMaster, x.random, x.serverRandom) == Some(x.master)
              && GoodKeys(env, x) ==>
                secrets == Some(Secrets(x.exchange, x.master, x.keys, x.sendProt, x.recvProt))
      ensures writes >= old(writes)
    {
      hide StreamPrefix, RecordLayer.Protector.Sound, KeyBlockIvLen, KeyMaterial.Concat;
      secrets := None;
      var exchange := env.keyExchange(suite.value, chain, params);
      if exchange.None? {
        Fatal(HANDSHAKE_FAILURE);
        return;
      }
      var master := MasterSecret(suite.value, exchange.value.preMaster, clientRandom, serverRandom);
      if master.None? {
        Fatal(INTERNAL_ERROR);
        return;
      }
      var km := ExpandKeys(suite.value, master.value, clientRandom, serverRandom);
      if km.None? {
        Fatal(INTERNAL_ERROR);
        return;
      }
      OneKeyMaterial(suite.value, master.value, clientRandom, serverRandom, km.value, x.keys);
      var send := env.buildProtector(suite.value, km.value.clientKey, km.value.clientMac, km.value.clientIv);
      if send.None? {
        Fatal(INTERNAL_ERROR);
        return;
      }
      var recv := env.buildProtector(suite.value, km.value.serverKey, km.value.serverMac, km.value.serverIv);
      if recv.None? {
        Fatal(INTERNAL_ERROR);
        return;
      }
      secrets := Some(Secrets(exchange.value, master.value, km.value, send.value, recv.value));
    }

    /** Steps 5 to 8.5: the keys, and everything the client sends in the clear. */
    method ClientPhase(chain: seq<seq<byte>>, params: Option<seq<byte>>, ghost r0: Run, ghost x: Run)
      returns (ok: bool, secrets: Secrets, ghost r: Run)
      requires Valid() && InSync() && !clientCertSent && suite.Some? && suite.value.prf.Sound()
      requires SoFar(r0, chain, params) && trace == FirstFlight(env, r0) + ServerFlight(r0.ske, r0.request)
      modifies this`writes, this`trace, this`outs, this`alert, this`clientCertSent, this`clientSigAlg, layer`written,
               layer`sendSeq, layer`sendProt, transcript
      ensures ok ==> Valid() && InSync() && trace == UpToKeyExchange(env, r) + OptSent(r.certVerify)
      ensures ok ==> SoFar(r, chain, params) && GoodClientAuth(env, r) && SameServerSide(r, r0)
      ensures ok ==> secrets == Secrets(r.exchange, r.master, r.keys, r.sendProt, r.recvProt)
      ensures ok ==> env.keyExchange(r.suite, r.chain, r.params) == Some(r.exchange)
      ensures ok ==> MasterSecret(r.suite, r.exchange.preMaster, r.random, r.serverRandom) == Some(r.master)
      ensures ok ==> GoodKeys(env, r)
      ensures !ok ==> Ended() && writes > old(writes) && |trace| <= |old(trace)| + 6
      ensures !ok ==> alert.value.desc == if env.keyExchange(r0.suite, r0.chain, r0.params).None? then 40 else 80
      ensures GoodRun(env, x) && NoLocalFailure(env, x) && SameServerSide(r0, x) ==>
                ok && r == x.(clientFinished := r0.clientFinished, serverFinished := r0.serverFinished)
      ensures writes >= old(writes)
    {
      hide Envelopes, T.AppendAll, Marshal, HashedBytes, StreamPrefix, FinishedVerifyData, Synced,
           RecordLayer.Protector.Sound, ServerHelloChoice, ChainOf, SkeParams, ParseBody, Preferred, NoneUsable,
           FitsRecord, MasterSecret, KeyBlock, IsPartition, Valid, InSync, Live, Ended, GoodClientAuth, NoLocalFailure,
           GoodRun, UpToKeyExchange, FirstFlight, ServerFlight, GoodKeys, CertificateFor;
      ok, r := false, r0;
      if GoodRun(env, x) {
        GoodParts(env, x);
      }
      SameFlights(env, r0, x);
      var k := KeyPhase(chain, params, x);
      if k.None? {
        secrets := NoSecrets();
        return;
      }
      secrets := k.value;
      ghost var clientCert, certVerify;
      ok, clientCert, certVerify := SendClientFlight(secrets.exchange.cke, x);
      r := WithSecrets(r0, secrets, clientCert, certVerify);
      if ok {
        ClientRunGood(env, r0, secrets, clientCert, certVerify);
      }
    }

    /** Run `r` agrees with the fields on the server's first flight. */
    ghost predicate SoFar(r: Run, chain: seq<seq<byte>>, params: Option<seq<byte>>)
      reads this
    {
      && r.random == clientRandom && suite == Some(r.suite) && r.serverRandom == serverRandom
      && r.chain == chain && r.params == params && r.certReq == certReq
      && ServerSideGood(env, r)
    }

    /** Steps 9 and 10: ChangeCipherSpec and the client's Finished. */
    method SendFinished(secrets: Secrets) returns (ok: bool, ghost vd: seq<byte>)
      requires Valid() && InSync() && suite.Some? && suite.value.prf.Sound() && secrets.sendProt.Sound()
      modifies this`writes, this`trace, this`outs, this`alert, layer`written, layer`sendSeq, layer`sendProt,
               layer`recvSeq, layer`recvProt, transcript
      ensures ok ==> Valid() && InSync() && In() == old(In())
      ensures ok ==>
                var t1 := old(trace) + [SentCcs] + [InstalledSend(secrets.sendProt)];
                && trace == t1 + [Sent(FINISHED, vd)]
                && FinishedVerifyData(suite.value, secrets.master, CLIENT_FINISHED_LABEL,
                                      suite.value.prf.digest(HashedBytes(t1))) == Some(vd)
      ensures !ok ==> Ended() && writes > old(writes) && |trace| <= |old(trace)| + 4
      ensures !ok ==> alert.value.desc == 80
      ensures (&& env.Unfailing() && |old(trace)| <= MAX_EVENTS - 2
               && |HashedBytes(old(trace) + [SentCcs] + [InstalledSend(secrets.sendProt)])| <= T.MAX_TRANSCRIPT)
              ==> ok
      ensures writes >= old(writes)
    {
      hide Envelopes, T.AppendAll, Marshal, HashedBytes, StreamPrefix, FinishedVerifyData, FitsRecord, Synced, Accepted,
           RecordLayer.Protector.Sound, Valid, InSync, Live, Ended;
      vd := [];
      ok := SendCcs(secrets.sendProt);
      if !ok {
        return;
      }
      var value := FinishedValue(secrets.master, CLIENT_FINISHED_LABEL);
      if value.None? {
        Fatal(INTERNAL_ERROR);
        ok := false;
        return;
      }
      vd := value.value;
      FinishedMarshals(vd);
      FinishedFits(suite.value, vd);
      ok := SendMessage(Finished(value.value));
      if !ok {
        Fatal(INTERNAL_ERROR);
      }
    }

    /** Steps 9 to 12: ChangeCipherSpec and Finished in both directions. */
    method FinishPhase(secrets: Secrets, ghost x: Run, ghost after: Source)
      returns (ok: bool, ghost clientVd: seq<byte>, ghost serverVd: seq<byte>)
      requires Valid() && InSync() && suite.Some? && suite.value.prf.Sound()
      requires secrets.sendProt.Sound() && secrets.recvProt.Sound()
      modifies this`hsBuf, this`writes, this`trace, this`outs, this`alert, layer, transcript
      ensures ok ==> Valid() && InSync() && old(hsBuf) == hsBuf == []
      ensures ok ==> AtCcs(old(In()))
                     && NextMessage([], BehindCcs(old(In()), secrets.recvProt)) == Msg(FINISHED, serverVd, [], In())
      ensures ok ==>
                var t1 := old(trace) + [SentCcs] + [InstalledSend(secrets.sendProt)];
                var t2 := t1 + [Sent(FINISHED, clientVd)] + [ReceivedCcs] + [InstalledRecv(secrets.recvProt)];
                && trace == t2 + [Received(FINISHED, serverVd)]
                && FinishedVerifyData(suite.value, secrets.master, CLIENT_FINISHED_LABEL,
                                      suite.value.prf.digest(HashedBytes(t1))) == Some(clientVd)
                && FinishedVerifyData(suite.value, secrets.master, SERVER_FINISHED_LABEL,
                                      suite.value.prf.digest(HashedBytes(t2))) == Some(serverVd)
      ensures !ok ==> Ended() && writes > old(writes) && |trace| <= |old(trace)| + 10
      ensures GoodRun(env, x) && NoLocalFailure(env, x) && suite == Some(x.suite)
              && secrets == Secrets(x.exchange, x.master, x.keys, x.sendProt, x.recvProt)
              && old(trace) == UpToKeyExchange(env, x) + OptSent(x.certVerify) && old(hsBuf) == []
              && AtCcs(old(In()))
              && NextMessage([], BehindCcs(old(In()), x.recvProt)) == Msg(FINISHED, x.serverFinished, [], after) ==>
                ok && clientVd == x.clientFinished && serverVd == x.serverFinished && In() == after
      ensures writes >= old(writes)
    {
      hide Envelopes, T.AppendAll, Marshal, HashedBytes, StreamPrefix, FinishedVerifyData, NextMessage,
           RecordLayer.ReadOne, UpToKeyExchange, ServerSideGood, GoodClientAuth, GoodKeys, MasterSecret, FitsRecord,
           Synced, Accepted, RecordLayer.Protector.Sound, Valid, InSync, Live, Ended;
      FinishHashes(env, x);
      clientVd, serverVd := [], [];
      ok, clientVd := SendFinished(secrets);
      if !ok {
        return;
      }
      if hsBuf != [] {
        Fatal(UNEXPECTED_MESSAGE);
        ok := false;
        return;
      }
      var received;
      ok, received := ReceiveServerFinished(secrets.master, secrets.recvProt, x.serverFinished, after);
      serverVd := received;
    }

    /** Steps 1 to 8.5: everything before the ChangeCipherSpecs. */
    method ClearPhase(ghost x: Run, ghost atCcs: Source) returns (ok: bool, secrets: Secrets, ghost r: Run)
      requires Valid() && InSync() && trace == [] && certReq == None && !clientCertSent && hsBuf == []
      modifies this, layer, transcript
      ensures ok ==> Valid() && InSync() && suite == Some(r.suite) && r.suite.prf.Sound()
      ensures ok ==> clientRandom == r.random && serverRandom == r.serverRandom
      ensures ok ==> trace == UpToKeyExchange(env, r) + OptSent(r.certVerify) && |trace| <= 9
      ensures ok ==> secrets == Secrets(r.exchange, r.master, r.keys, r.sendProt, r.recvProt)
      ensures ok ==> Takes([], old(In()), ServerMessages(r), hsBuf, In()) && CheckedBeforeFinished(env, r)
      ensures !ok && trace == [] <==> !CanGreet(env, old(writes))
      ensures !CanGreet(env, old(writes)) ==> alert == old(alert)
      ensures !ok && CanGreet(env, old(writes)) ==> Ended() && writes >= old(writes) + 2 && |trace| <= 50
      ensures (&& GoodRun(env, x) && NoLocalFailure(env, x) && CanGreet(env, old(writes))
               && Takes([], old(In()), ServerMessages(x), [], atCcs)) ==>
                && ok && hsBuf == [] && In() == atCcs
                && r == x.(clientFinished := r.clientFinished, serverFinished := r.serverFinished)
      ensures ok ==> writes > old(writes)
      ensures writes >= old(writes)
    {
      hide Envelopes, T.AppendAll, Marshal, HashedBytes, StreamPrefix, FinishedVerifyData, Takes, NextMessage,
           RecordLayer.ReadOne, ServerHelloChoice, ChainOf, SkeParams, ParseBody, Preferred, NoneUsable, FitsRecord,
           MasterSecret, Synced, CanGreet, RecordLayer.Protector.Sound, GoodKeys, GoodClientAuth, ServerMessages,
           NoLocalFailure, Valid, InSync, Live, Ended, UpToKeyExchange, ServerSideGood, GoodRun, FirstFlight,
           ServerFlight;
      secrets := NoSecrets();
      if GoodRun(env, x) {
        GoodParts(env, x);
      }
      var chain, params;
      ok, chain, params, r := ServerPhase(x, atCcs);
      if !ok {
        return;
      }
      FirstFlightsShort(env, r);
      ghost var r1 := r;
      ok, secrets, r := ClientPhase(chain, params, r, x);
      if ok {
        SameMessages(r, r1);
        ShortTrace(env, r);
      }
    }

    /** The whole handshake, message by message. */
    method RunHandshake(ghost x: Run, ghost atCcs: Source, ghost after: Source)
      returns (ok: bool, ghost r: Run, ghost mid: Source)
      requires Valid() && InSync() && trace == [] && certReq == None && !clientCertSent && hsBuf == []
      modifies this, layer, transcript
      ensures ok ==> Valid() && InSync() && hsBuf == [] && done
      ensures ok ==> GoodRun(env, r) && trace == RunTrace(env, r) && TakesRun(old(In()), mid, In(), r)
      ensures ok ==> clientRandom == r.random && serverRandom == r.serverRandom
      ensures !ok && trace == [] <==> !CanGreet(env, old(writes))
      ensures !CanGreet(env, old(writes)) ==> alert == old(alert)
      ensures !ok && CanGreet(env, old(writes)) ==> Ended() && writes >= old(writes) + 2 && |trace| <= MAX_EVENTS
      ensures (&& GoodRun(env, x) && NoLocalFailure(env, x) && CanGreet(env, old(writes))
               && TakesRun(old(In()), atCcs, after, x)) ==>
                ok && r == x && In() == after
      ensures writes >= old(writes)
    {
      hide Envelopes, T.AppendAll, Marshal, HashedBytes, StreamPrefix, FinishedVerifyData, Takes, NextMessage,
           RecordLayer.ReadOne, FitsRecord, MasterSecret, Synced, CanGreet, RecordLayer.Protector.Sound, GoodKeys,
           GoodClientAuth, ServerMessages, NoLocalFailure, Valid, InSync, Live, Ended, UpToKeyExchange, ServerSideGood,
           GoodRun, RunTrace, CheckedBeforeFinished;
      ghost var s0 := In();
      ghost var good := GoodRun(env, x) && NoLocalFailure(env, x) && CanGreet(env, writes)
        && TakesRun(s0, atCcs, after, x);
      if good {
        TakesFinished(BehindCcs(atCcs, x.recvProt), x.serverFinished, after);
      }
      mid := s0;
      var secrets;
      ok, secrets, r := ClearPhase(x, atCcs);
      if !ok {
        return;
      }
      mid := In();
      CheckedSound(env, r);
      if good {
        Completed(env, x, r.clientFinished, r.serverFinished);
      }
      ghost var clientVd, serverVd;
      ok, clientVd, serverVd := FinishPhase(secrets, x, after);
      if !ok {
        return;
      }
      Completed(env, r, clientVd, serverVd);
      CompletedRun(env, r, clientVd, serverVd, trace);
      r := r.(clientFinished := clientVd, serverFinished := serverVd);
      TakesFinished(BehindCcs(mid, r.recvProt), r.serverFinished, In());
      done := true;
    }

    /** The whole handshake. Success means that the run has exactly the trace
        and has passed exactly the checks of a good run, whose messages arrived
        under the protectors installed in it; and it comes about for every good
        run that arrives while nothing fails locally. On failure an alert is
        attempted, except exactly when the ClientHello could not be sent; it is
        on the wire exactly if its record is then accepted. */
    method Handshake(ghost x: Run, ghost after: Source) returns (ok: bool, ghost r: Run)
      requires Valid() && InSync() && trace == [] && certReq == None && !clientCertSent && hsBuf == [] && alert == None
      modifies this, layer, transcript
      ensures ok ==> Valid() && InSync() && hsBuf == [] && done
      ensures ok ==> GoodRun(env, r) && trace == RunTrace(env, r) && Arrives(old(In()), In(), r)
      ensures ok ==> PeerReads(layer.written, RunTrace(env, r), layer.Sending())
      ensures ok ==> Answered(env, r.serverHello, r.suite, r.serverRandom) && env.verifyChain(r.chain)
      ensures ok && NeedsSke(r.suite.kx) ==>
                && r.ske.Some? && r.params.Some?
                && Signed(env, r.suite, clientRandom, serverRandom, r.chain, r.ske.value, r.params.value)
      ensures !ok && trace == [] <==> !CanGreet(env, old(writes))
      ensures !ok && CanGreet(env, old(writes)) ==> Ended() && writes >= old(writes) + 2 && |trace| <= MAX_EVENTS
      ensures !ok ==> (AlertSent() <==> CanGreet(env, old(writes)) && AlertAccepted(env, alert.value))
      ensures !ok && CanGreet(env, old(writes)) && env.Unfailing() ==>
                AlertSent() && PeerReads(layer.written, trace, layer.Sending())
      ensures GoodRun(env, x) && NoLocalFailure(env, x) && Arrives(old(In()), after, x) ==>
                ok && r == x && In() == after
    {
      hide GoodRun, NoLocalFailure, RunTrace, Arrives, TakesRun, PeerReads, CanGreet, Valid, InSync, Live, Ended,
           AlertSent, AlertAccepted, Synced, RecordLayer.Protector.Sound, Answered, Signed;
      ghost var s0, atCcs := In(), In();
      if GoodRun(env, x) && NoLocalFailure(env, x) && Arrives(s0, after, x) {
        atCcs := ArrivalTaken(env, s0, after, x);
        GoodGreets(env, x, writes);
      }
      ghost var mid;
      ok, r, mid := RunHandshake(x, atCcs, after);
      if ok {
        TakenArrives(s0, mid, In(), r);
        CompletedServerHello(env, r);
        if NeedsSke(r.suite.kx) {
          CompletedSignature(env, r);
        }
        IsSynced();
        SyncedReads(layer.written, layer.Sending(), outs, trace);
      } else if CanGreet(env, old(writes)) {
        AlertDecided();
      }
    }
  }

  /** A failure without an alert: no random can be drawn for the ClientHello. */
  method SilentFailure(env: Env, input: seq<byte>) returns (c: Client, ok: bool)
    requires env.Sound()
    ensures c.env == env.(random := None) && fresh(c)
    ensures !ok && c.trace == [] && !CanGreet(c.env, 0)
  {
    hide PeerReads, Arrives, GoodRun, NoLocalFailure, RunTrace;
    var layer := new RecordLayer.Layer(input, 0);
    c := new Client(layer, env.(random := None));
    ghost var r;
    ok, r := c.Handshake(NoRun(), c.In());
  }

  lemma NothingArrives(src: Source, after: Source, r: Run)
    requires src.input == []
    ensures !Arrives(src, after, r)
  {
    hide RecordLayer.ReadOne, Envelope;
    forall flight, atCcs, last ensures !ArrivesIn(src, flight, atCcs, last, after, r) {
      assert WireOf(ServerMessages(r)) != [] by {
        assert ServerMessages(r)[0] == (SERVER_HELLO, r.serverHello);
      }
      if src.Sound() {
        NothingToRead(src);
      }
      assert flight == [] ==> Flatten(flight) == [];
    }
  }

  lemma NothingToRead(src: Source)
    requires src.input == [] && src.Sound()
    ensures src.Read().NoRecord?
  {
  }

  lemma NoRoom(env: Env, a: Attempt)
    requires env.Sound() && a.end.prot.Sound() && env.room(a.at) == 0
    ensures !AlertAccepted(env, a)
  {
    hide RecordLayer.Seal, BigEndian, RecordLayer.Protector.Sound;
  }

  /** A failure whose alert is lost: the transport takes the ClientHello and
      nothing behind it, and no input comes. */
  method LostAlert(env: Env) returns (c: Client, ok: bool)
    requires env.Sound() && env.random.Some? && FitsRecord(Hello(env, env.random.value))
    ensures c.env == env.(room := FirstOnly) && fresh(c) && fresh(c.layer)
    ensures CanGreet(c.env, 0) && !ok && EndsInAlert(c.trace) && !c.AlertSent()
  {
    SameHello(env);
    hide PeerReads, Arrives, GoodRun, NoLocalFailure, RunTrace, Hello, Marshal, Synced, AlertAccepted, Client.Ended,
         Client.AlertSent, RecordLayer.Protector.Sound, Client.Valid, Client.InSync;
    var layer := new RecordLayer.Layer([], 0);
    c := new Client(layer, env.(room := FirstOnly));
    ghost var src := c.In();
    ghost var r;
    ok, r := c.Handshake(NoRun(), src);
    if ok {
      NothingArrives(src, c.In(), r);
    } else {
      c.AlertIsLast();
      NoRoom(c.env, c.alert.value);
    }
  }

  lemma SameHello(env: Env)
    requires env.random.Some?
    ensures Hello(env.(room := FirstOnly), env.random.value) == Hello(env, env.random.value)
  {
  }

  function FirstOnly(i: nat): (n: nat)
  {
    if i == 0 then RecordLayer.HEADER_LEN + RecordLayer.MAX_FRAGMENT else 0
  }

  // ---- The sending direction ----------------------------------------------

  const START: RecordLayer.End := RecordLayer.START

  /** `outs`, run from the start, wrote `written` and left `end`, and is what
      the trace did to the record layer. */
  ghost predicate Synced(written: seq<byte>, end: RecordLayer.End, outs: seq<RecordLayer.Event>, trace: seq<Event>)
  {
    && RecordLayer.WellFormedRun(START, outs)
    && RecordLayer.WriterRun(START, outs) == Some((written, end))
    && RecordLayer.Strip(outs) == OutEvents(trace)
  }

  lemma SyncedAtStart(written: seq<byte>, end: RecordLayer.End, outs: seq<RecordLayer.Event>)
    requires Synced(written, end, outs, [])
    ensures written == [] && end == START
  {
    assert |RecordLayer.Strip(outs)| == 0;
  }

  lemma StripSnoc(outs: seq<RecordLayer.Event>, x: RecordLayer.Event)
    ensures RecordLayer.Strip(outs + [x]) == RecordLayer.Strip(outs) + [RecordLayer.StripOne(x)]
  {
    assert (outs + [x])[..|outs|] == outs;
  }

  lemma SyncedStep(written: seq<byte>, end: RecordLayer.End, outs: seq<RecordLayer.Event>, trace: seq<Event>,
                   e: Event, x: RecordLayer.Event)
    requires Synced(written, end, outs, trace) && RecordLayer.Succeeds(end, x)
    requires OutEvent(e) == [RecordLayer.StripOne(x)]
    ensures Synced(written + RecordLayer.WireFor(end, x), RecordLayer.EndAfter(end, x), outs + [x], trace + [e])
  {
    hide RecordLayer.WellFormedRun, RecordLayer.WriterRun, RecordLayer.Strip, OutEvents, RecordLayer.Succeeds,
         RecordLayer.WireFor, RecordLayer.EndAfter, OutEvent;
    RecordLayer.WriterRunSnoc(START, outs, x);
    StripSnoc(outs, x);
    OutEventsSnoc(trace, e);
  }

  lemma SyncedSwap(written: seq<byte>, end: RecordLayer.End, outs: seq<RecordLayer.Event>, trace: seq<Event>,
                   prot: RecordLayer.Protector)
    requires Synced(written, end, outs, trace) && end.prot.Sound() && prot.Sound()
    ensures Synced(written, RecordLayer.Swapped(prot), outs + [RecordLayer.Swap(prot)], trace + [InstalledSend(prot)])
  {
    hide Synced, RecordLayer.Protector.Sound;
    SyncedStep(written, end, outs, trace, InstalledSend(prot), RecordLayer.Swap(prot));
    assert written + [] == written;
  }

  /** Receiving does nothing to the sending direction. */
  lemma SyncedSilent(written: seq<byte>, end: RecordLayer.End, outs: seq<RecordLayer.Event>, trace: seq<Event>,
                     e: Event)
    requires OutEvent(e) == []
    ensures Synced(written, end, outs, trace) ==> Synced(written, end, outs, trace + [e])
  {
    OutEventsSnoc(trace, e);
  }

  /** An end that installs the same protectors at the same places reads exactly
      the messages of the trace from the bytes written. */
  ghost predicate PeerReads(written: seq<byte>, trace: seq<Event>, end: RecordLayer.End)
  {
    && (forall x :: x in OutEvents(trace) && x.Swap? ==> x.prot.Sound())
    && forall tail ::
         RecordLayer.ReaderRun(START, OutEvents(trace), written + tail)
         == Some(RecordLayer.Delivered(RecordLayer.Sent(OutEvents(trace)), tail, end))
  }

  lemma SyncedReads(written: seq<byte>, end: RecordLayer.End, outs: seq<RecordLayer.Event>, trace: seq<Event>)
    requires Synced(written, end, outs, trace)
    ensures PeerReads(written, trace, end)
  {
    hide RecordLayer.WellFormedRun, RecordLayer.WriterRun, RecordLayer.Strip, OutEvents, RecordLayer.ReaderRun,
         RecordLayer.Sent;
    RecordLayer.ReadBack(START, outs, []);
    forall tail ensures RecordLayer.ReaderRun(START, OutEvents(trace), written + tail)
                     == Some(RecordLayer.Delivered(RecordLayer.Sent(OutEvents(trace)), tail, end)) {
      RecordLayer.ReadBack(START, outs, tail);
    }
  }

  function IvSize(prot: RecordLayer.Protector): (n: nat)
  {
    if prot.Cbc? then prot.cbc.blockSize else 0
  }

  /** The i-th record goes out. */
  ghost predicate Accepted(env: Env, i: nat, end: RecordLayer.End, ct: byte, payload: seq<byte>)
    requires env.Sound() && end.prot.Sound()
  {
    var random := env.draw(i, IvSize(end.prot));
    && !(end.prot.Cbc? && random.None?)
    && var w := RecordLayer.WriteOne(end, ct, payload, RecordLayer.Drawn(random));
       w.Written? && env.room(i) >= |w.wire|
  }

  /** The attempt to send an alert: its number among the record writes, and
      where the sending direction stood. */
  datatype Attempt = Attempt(desc: byte, at: nat, end: RecordLayer.End, before: seq<byte>)

  ghost predicate AlertAccepted(env: Env, a: Attempt)
    requires env.Sound() && a.end.prot.Sound()
  {
    Accepted(env, a.at, a.end, RecordLayer.ALERT, [2, a.desc])
  }

  /** The bytes that go out of the i-th record. */
  ghost function Taken(env: Env, i: nat, end: RecordLayer.End, ct: byte, payload: seq<byte>): (r: seq<byte>)
    requires env.Sound() && end.prot.Sound()
  {
    var random := env.draw(i, IvSize(end.prot));
    if end.prot.Cbc? && random.None? then []
    else
      match RecordLayer.WriteOne(end, ct, payload, RecordLayer.Drawn(random))
      case NotWritten(_) => []
      case Written(wire, _) => if env.room(i) >= |wire| then wire else wire[..env.room(i)]
  }

  ghost function OnWire(env: Env, a: Attempt): (r: seq<byte>)
    requires env.Sound() && a.end.prot.Sound()
  {
    Taken(env, a.at, a.end, RecordLayer.ALERT, [2, a.desc])
  }

  /** `bytes` is the record of the alert from beginning to end. */
  ghost predicate WholeRecord(env: Env, a: Attempt, bytes: seq<byte>)
    requires env.Sound() && a.end.prot.Sound()
  {
    var random := env.draw(a.at, IvSize(a.end.prot));
    && !(a.end.prot.Cbc? && random.None?)
    && var w := RecordLayer.WriteOne(a.end, RecordLayer.ALERT, [2, a.desc], RecordLayer.Drawn(random));
       w.Written? && bytes == w.wire
  }

  lemma WholeIffAccepted(env: Env, a: Attempt)
    requires env.Sound() && a.end.prot.Sound()
    ensures WholeRecord(env, a, OnWire(env, a)) <==> AlertAccepted(env, a)
  {
    hide RecordLayer.WriteOne, RecordLayer.Protector.Sound;
  }

  /** While transport and random source work, a record that does not go out is
      refused before anything is written. */
  lemma UnfailingRefuses(env: Env, i: nat, end: RecordLayer.End, ct: byte, payload: seq<byte>)
    requires env.Sound() && end.prot.Sound()
    ensures env.Unfailing() && !Accepted(env, i, end, ct, payload) ==>
              RecordLayer.WriteOne(end, ct, payload, RecordLayer.Drawn(env.draw(i, IvSize(end.prot)))).NotWritten?
  {
    hide RecordLayer.Seal, BigEndian, RecordLayer.Protector.Sound;
    if env.Unfailing() {
      var iv := RecordLayer.Drawn(env.draw(i, IvSize(end.prot)));
      RecordLayer.SealBound(end.prot, end.seqNum, RecordLayer.Template(ct), payload, iv);
    }
  }

  lemma WrittenAdvances(end: RecordLayer.End, ct: byte, payload: seq<byte>, iv: seq<byte>)
    requires end.prot.Sound() && end.prot.IvFits(iv)
    ensures var w := RecordLayer.WriteOne(end, ct, payload, iv);
            w.Written? ==> w.end.seqNum == end.seqNum + 1 && w.end.prot.Sound()
  {
    hide RecordLayer.Seal, BigEndian, RecordLayer.Protector.Sound, RecordLayer.Protector.IvFits;
    RecordLayer.SealedSound(end.prot, end.seqNum, RecordLayer.Template(ct), payload, iv);
  }

  /** A trace that is not longer leaves sequence numbers to spare. */
  const MAX_EVENTS: nat := 1000

  lemma UnfailingAccepts(env: Env, i: nat, end: RecordLayer.End, ct: byte, payload: seq<byte>)
    requires env.Sound() && end.prot.Sound()
    ensures (&& env.Unfailing() && RecordLayer.KnownContentType(ct) && |payload| <= RecordLayer.MAX_PLAINTEXT
             && end.seqNum <= MAX_EVENTS) ==> Accepted(env, i, end, ct, payload)
  {
    hide RecordLayer.Seal, BigEndian, RecordLayer.Protector.Sound;
    if env.Unfailing() {
      var iv := RecordLayer.Drawn(env.draw(i, IvSize(end.prot)));
      RecordLayer.SealBound(end.prot, end.seqNum, RecordLayer.Template(ct), payload, iv);
    }
  }

  /** The first record is not protected: it needs room for its bytes and a
      header. */
  lemma ClearAccepts(env: Env, i: nat, ct: byte, payload: seq<byte>)
    requires env.Sound() && RecordLayer.KnownContentType(ct)
    ensures Accepted(env, i, START, ct, payload)
       <==> |payload| <= RecordLayer.MAX_PLAINTEXT && env.room(i) >= RecordLayer.HEADER_LEN + |payload|
  {
    hide BigEndian;
  }

  /** A random can be drawn, the ClientHello fits a record, and the transport
      takes that record, the i-th. */
  predicate CanGreet(env: Env, i: nat)
  {
    && env.random.Some?
    && FitsRecord(Hello(env, env.random.value))
    && env.room(i) >= RecordLayer.HEADER_LEN + |MarshalMessage(Hello(env, env.random.value))|
  }

  lemma HelloType(env: Env, random: Random)
    ensures TypeOf(Hello(env, random)) == CLIENT_HELLO
  {
  }

  lemma GoodGreets(env: Env, x: Run, i: nat)
    requires GoodRun(env, x) && NoLocalFailure(env, x)
    ensures CanGreet(env, i)
  {
    hide GoodKeys, GoodClientAuth, MasterSecret, FinishedVerifyData, Marshal, Hello, HashedBytes, UpToServerCcs,
         ServerMessages, ServerHelloChoice, ChainOf, SkeParams, ParseBody;
  }

  // ---- The receiving direction --------------------------------------------

  datatype FlightStep =
    | TookSke(body: seq<byte>, params: seq<byte>)
    | TookRequest(body: seq<byte>)
    | TookDone(body: seq<byte>)
    | Refused

  function StepType(step: FlightStep): (t: byte)
  {
    match step
    case TookSke(_, _) => SERVER_KEY_EXCHANGE
    case TookRequest(_) => CERTIFICATE_REQUEST
    case TookDone(_) => SERVER_HELLO_DONE
    case Refused => 0
  }

  lemma TakesNone(buf: seq<byte>, src: Source)
    requires src.Sound()
    ensures Takes(buf, src, SoFarTaken(None, None), buf, src)
  {
  }

  lemma TakesNext(buf: seq<byte>, src: Source, msgs: Msgs, buf': seq<byte>, src': Source)
    requires Takes(buf, src, msgs, buf', src') && msgs != []
    ensures src.Sound() && var r := NextMessage(buf, src);
            && r.Msg? && (r.t, r.body) == msgs[0] && Takes(r.buf, r.src, msgs[1..], buf', src')
            && (msgs[1..] == [] ==> r.buf == buf' && r.src == src')
  {
    hide NextMessage;
  }

  function SoFarTaken(ske: Option<seq<byte>>, request: Option<seq<byte>>): (r: Msgs)
  {
    OptMessage(SERVER_KEY_EXCHANGE, ske) + OptMessage(CERTIFICATE_REQUEST, request)
  }

  function FlightSoFar(ske: Option<seq<byte>>, request: Option<seq<byte>>): (r: seq<Event>)
  {
    OptReceived(SERVER_KEY_EXCHANGE, ske) + OptReceived(CERTIFICATE_REQUEST, request)
  }

  lemma TraceStart(base: seq<Event>)
    ensures base + FlightSoFar(None, None) == base
  {
  }

  lemma FlightShort(ske: Option<seq<byte>>, request: Option<seq<byte>>)
    ensures |FlightSoFar(ske, request)| <= 2
  {
  }

  lemma TraceMore(base: seq<Event>, ske: Option<seq<byte>>, request: Option<seq<byte>>, e: Event)
    requires e.Received?
    ensures e.t == SERVER_KEY_EXCHANGE && ske.None? && request.None? ==>
              base + FlightSoFar(ske, request) + [e] == base + FlightSoFar(Some(e.body), None)
    ensures e.t == CERTIFICATE_REQUEST && request.None? ==>
              base + FlightSoFar(ske, request) + [e] == base + FlightSoFar(ske, Some(e.body))
    ensures e.t == SERVER_HELLO_DONE && e.body == [] ==>
              base + FlightSoFar(ske, request) + [e] == base + ServerFlight(ske, request)
  {
  }

  /** What the flight of a run with good checks looks like. */
  lemma ExpectedFlight(env: Env, x: Run)
    ensures ServerSideGood(env, x) ==>
              && (x.ske.Some? <==> NeedsSke(x.suite.kx)) && (x.params.Some? <==> x.ske.Some?)
              && (x.ske.Some? ==>
                    SkeParams(env, x.suite, x.random, x.serverRandom, x.chain, x.ske.value) == x.params)
              && (x.request.Some? ==> ParseBody(CERTIFICATE_REQUEST, x.request.value).Some?)
  {
    hide SkeParams, ParseBody, ServerHelloChoice, ChainOf;
  }

  lemma TakesMore(b0: seq<byte>, s0: Source, ske: Option<seq<byte>>, request: Option<seq<byte>>,
                  b1: seq<byte>, s1: Source, t: byte, body: seq<byte>, b2: seq<byte>, s2: Source)
    requires Takes(b0, s0, SoFarTaken(ske, request), b1, s1)
    requires s1.Sound() && NextMessage(b1, s1) == Msg(t, body, b2, s2)
    ensures t == SERVER_KEY_EXCHANGE && ske.None? && request.None? ==>
              Takes(b0, s0, SoFarTaken(Some(body), None), b2, s2)
    ensures t == CERTIFICATE_REQUEST && request.None? ==> Takes(b0, s0, SoFarTaken(ske, Some(body)), b2, s2)
    ensures t == SERVER_HELLO_DONE && body == [] ==> Takes(b0, s0, FlightMessages(ske, request), b2, s2)
  {
    hide NextMessage;
    assert Takes(b1, s1, [(t, body)], b2, s2) by {
      assert [(t, body)][1..] == [];
    }
    TakesOn(b0, s0, SoFarTaken(ske, request), b1, s1, [(t, body)], b2, s2);
    assert ske.None? && request.None? && t == SERVER_KEY_EXCHANGE ==>
        SoFarTaken(ske, request) + [(t, body)] == SoFarTaken(Some(body), None);
    assert request.None? && t == CERTIFICATE_REQUEST ==>
        SoFarTaken(ske, request) + [(t, body)] == SoFarTaken(ske, Some(body));
  }

  /** What taking the messages of run `x` means step by step. */
  lemma FirstTaken(src: Source, x: Run, src': Source)
    requires src.Sound()
    ensures Takes([], src, ServerMessages(x), [], src') ==>
              var a := NextMessage([], src);
              && a.Msg? && a.t == SERVER_HELLO && a.body == x.serverHello
              && var b := NextMessage(a.buf, a.src);
                 && b.Msg? && b.t == CERTIFICATE && b.body == x.certificate
                 && Takes(b.buf, b.src, FlightMessages(x.ske, x.request), [], src')
  {
    hide NextMessage, FlightMessages, Takes;
    var msgs := ServerMessages(x);
    assert msgs[0] == (SERVER_HELLO, x.serverHello) && msgs[1..][0] == (CERTIFICATE, x.certificate);
    assert msgs[1..][1..] == FlightMessages(x.ske, x.request);
    if Takes([], src, msgs, [], src') {
      TakesNext([], src, msgs, [], src');
      var a := NextMessage([], src);
      TakesNext(a.buf, a.src, msgs[1..], [], src');
    }
  }

  lemma AllFirstTaken(s0: Source, b1: seq<byte>, s1: Source, b2: seq<byte>, s2: Source, r: Run, b3: seq<byte>,
                      s3: Source)
    requires s0.Sound() && NextMessage([], s0) == Msg(SERVER_HELLO, r.serverHello, b1, s1)
    requires s1.Sound() && NextMessage(b1, s1) == Msg(CERTIFICATE, r.certificate, b2, s2)
    requires Takes(b2, s2, FlightMessages(r.ske, r.request), b3, s3)
    ensures Takes([], s0, ServerMessages(r), b3, s3)
  {
    hide NextMessage, FlightMessages;
    var msgs := ServerMessages(r);
    assert msgs[0] == (SERVER_HELLO, r.serverHello) && msgs[1..][0] == (CERTIFICATE, r.certificate);
    assert msgs[1..][1..] == FlightMessages(r.ske, r.request);
    assert Takes(b1, s1, msgs[1..], b3, s3);
  }

  /** Where the ChangeCipherSpec stands in an arrival of run `x`. */
  lemma ArrivalTaken(env: Env, src: Source, after: Source, x: Run) returns (atCcs: Source)
    requires GoodRun(env, x) && NoLocalFailure(env, x) && Arrives(src, after, x)
    ensures TakesRun(src, atCcs, after, x)
  {
    hide NextMessage, ServerMessages, RecordLayer.ReadOne, ServerSideGood, GoodKeys, GoodClientAuth, HashedBytes,
         MasterSecret, StreamPrefix, FitsRecord, Hello, Supplies, Takes, TakesRun, RecordLayer.Protector.Sound;
    var flight, at, last :| ArrivesIn(src, flight, at, last, after, x);
    atCcs := at;
    ArrivesIsTaken(src, flight, at, last, after, x);
  }

  lemma TakesFinished(src: Source, vd: seq<byte>, after: Source)
    ensures Takes([], src, [(FINISHED, vd)], [], after)
       <==> src.Sound() && NextMessage([], src) == Msg(FINISHED, vd, [], after)
  {
    hide NextMessage, RecordLayer.Protector.Sound;
    var fin := [(FINISHED, vd)];
    assert fin[1..] == [];
    if src.Sound() && NextMessage([], src).Msg? {
      var n := NextMessage([], src);
      assert Takes(n.buf, n.src, [], [], after) <==> n.buf == [] && n.src == after;
    }
  }

  // ---- Keys ---------------------------------------------------------------

  datatype Secrets = Secrets(exchange: Exchange, master: seq<byte>, keys: KeyMaterial,
                             sendProt: RecordLayer.Protector, recvProt: RecordLayer.Protector)

  function NoSecrets(): (s: Secrets)
  {
    Secrets(Dhe.Exchange([], []), [], KeyMaterial([], [], [], [], [], []), RecordLayer.Null, RecordLayer.Null)
  }

  ghost predicate GoodSecrets(env: Env, suite: Suite, clientRandom: Random, serverRandom: seq<byte>, s: Secrets)
    requires suite.prf.Sound()
  {
    && KeyBlockLen(suite) > 0
    && IsPartition(s.keys, suite, KeyBlock(suite, s.master, clientRandom, serverRandom).value)
    && env.buildProtector(suite, s.keys.clientKey, s.keys.clientMac, s.keys.clientIv) == Some(s.sendProt)
    && env.buildProtector(suite, s.keys.serverKey, s.keys.serverMac, s.keys.serverIv) == Some(s.recvProt)
  }

  lemma OneKeyMaterial(suite: Suite, master: seq<byte>, clientRandom: seq<byte>, serverRandom: seq<byte>,
                       a: KeyMaterial, b: KeyMaterial)
    requires suite.prf.Sound() && KeyBlockLen(suite) > 0
    requires IsPartition(a, suite, KeyBlock(suite, master, clientRandom, serverRandom).value)
    ensures IsPartition(b, suite, KeyBlock(suite, master, clientRandom, serverRandom).value) ==> a == b
  {
    hide StreamPrefix, IsPartition, KeyBlockIvLen;
    var block := KeyBlock(suite, master, clientRandom, serverRandom).value;
    if IsPartition(b, suite, block) {
      PartitionUnique(a, b, suite, block);
    }
  }

  lemma ProtectorsSound(env: Env, r: Run)
    requires env.Sound() && r.suite.prf.Sound() && GoodKeys(env, r)
    ensures r.sendProt.Sound() && r.recvProt.Sound()
  {
    hide RecordLayer.Protector.Sound, StreamPrefix, IsPartition;
  }

  lemma ShortTrace(env: Env, x: Run)
    ensures |UpToKeyExchange(env, x) + OptSent(x.certVerify)| <= 9
  {
    hide Marshal, Hello;
  }

  lemma FinishHashes(env: Env, x: Run)
    ensures UpToClientCcs(env, x) + ([Sent(FINISHED, x.clientFinished)] + [ReceivedCcs] + [InstalledRecv(x.recvProt)])
         == UpToServerCcs(env, x)
    ensures |HashedBytes(UpToClientCcs(env, x))| <= |HashedBytes(UpToServerCcs(env, x))|
    ensures |UpToKeyExchange(env, x) + OptSent(x.certVerify)| <= 9
  {
    hide HashedBytes, Marshal;
    ShortTrace(env, x);
    HashedPrefix(UpToClientCcs(env, x),
                 [Sent(FINISHED, x.clientFinished)] + [ReceivedCcs] + [InstalledRecv(x.recvProt)]);
    assert UpToClientCcs(env, x) + ([Sent(FINISHED, x.clientFinished)] + [ReceivedCcs] + [InstalledRecv(x.recvProt)])
        == UpToServerCcs(env, x);
  }

  // ---- Choices ------------------------------------------------------------

  /** What is left of the flight of run `x`. */
  function Left(x: Run, sawSKE: bool, sawCertReq: bool): (r: Msgs)
  {
    FlightMessages(if sawSKE || sawCertReq then None else x.ske, if sawCertReq then None else x.request)
  }

  lemma LeftAtFirst(x: Run)
    ensures Left(x, false, false) == FlightMessages(x.ske, x.request)
  {
  }

  lemma LeftNext(x: Run, sawSKE: bool, sawCertReq: bool)
    ensures Left(x, sawSKE, sawCertReq) != []
    ensures var l := Left(x, sawSKE, sawCertReq);
            if !sawSKE && !sawCertReq && x.ske.Some? then
              l[0] == (SERVER_KEY_EXCHANGE, x.ske.value) && l[1..] == Left(x, true, false)
            else if !sawCertReq && x.request.Some? then
              l[0] == (CERTIFICATE_REQUEST, x.request.value) && l[1..] == Left(x, sawSKE, true)
            else l == [(SERVER_HELLO_DONE, [])] && l[1..] == []
  {
  }

  ghost predicate SameServerSide(r: Run, x: Run)
  {
    && r.suite == x.suite && r.random == x.random && r.serverHello == x.serverHello && r.serverRandom == x.serverRandom
    && r.certificate == x.certificate && r.chain == x.chain && r.ske == x.ske && r.params == x.params
    && r.request == x.request && r.certReq == x.certReq
  }

  function NoRun(): (r: Run)
  {
    var noHash := Hash(0, _ => [], (_, _) => []);
    Run(seq(32, _ => 0), [], Suite(0, KexRSA, AuthRSA, CipherSpec("", 0, 0, false), 0, noHash), [], [], [],
        None, None, None, None, None, Dhe.Exchange([], []), [], KeyMaterial([], [], [], [], [], []),
        RecordLayer.Null, RecordLayer.Null, None, [], [])
  }

  /** The part of a run up to ServerHelloDone. */
  function ServerRun(random: Random, serverHello: seq<byte>, suite: Suite, serverRandom: seq<byte>,
                     certificate: seq<byte>, chain: seq<seq<byte>>, ske: Option<seq<byte>>, params: Option<seq<byte>>,
                     request: Option<seq<byte>>, certReq: Option<Message>): (r: Run)
  {
    NoRun().(random := random, serverHello := serverHello, suite := suite, serverRandom := serverRandom,
             certificate := certificate, chain := chain, ske := ske, params := params, request := request,
             certReq := certReq)
  }

  lemma SameMessages(r: Run, x: Run)
    requires SameServerSide(r, x)
    ensures ServerMessages(r) == ServerMessages(x)
  {
  }

  /** Run `r0` with what the client chose and computed. */
  function WithSecrets(r0: Run, k: Secrets, clientCert: Option<Message>, certVerify: Option<Message>): (r: Run)
  {
    r0.(exchange := k.exchange, master := k.master, keys := k.keys, sendProt := k.sendProt, recvProt := k.recvProt,
        clientCert := clientCert, certVerify := certVerify)
  }

  lemma SameFlights(env: Env, r: Run, x: Run)
    ensures SameServerSide(r, x) ==>
              FirstFlight(env, r) + ServerFlight(r.ske, r.request)
              == FirstFlight(env, x) + ServerFlight(x.ske, x.request)
  {
    hide Hello, Marshal;
  }

  lemma ClientRunGood(env: Env, r0: Run, k: Secrets, clientCert: Option<Message>, certVerify: Option<Message>)
    requires ServerSideGood(env, r0) && r0.suite.prf.Sound()
    requires GoodSecrets(env, r0.suite, r0.random, r0.serverRandom, k)
    requires clientCert.Some? <==> r0.certReq.Some?
    requires clientCert.Some? ==> clientCert.value == CertificateFor(env, certVerify.Some?)
    requires certVerify.None? ==> r0.certReq.None? || NoneUsable(r0.certReq, env.certs)
    requires certVerify.Some? ==>
               && certVerify.value.CertificateVerify? && env.certs != []
               && Preferred(certVerify.value.alg, r0.certReq, env.certs)
               && env.sign(env.certs[0].key, certVerify.value.alg, env.digest(certVerify.value.alg.hash,
                    HashedBytes(FirstFlight(env, r0) + ServerFlight(r0.ske, r0.request) + OptSent(clientCert)
                                + [Sent(CLIENT_KEY_EXCHANGE, k.exchange.cke)])))
                  == Some(certVerify.value.signature)
    ensures var r := WithSecrets(r0, k, clientCert, certVerify);
            && GoodClientAuth(env, r) && GoodKeys(env, r) && ServerSideGood(env, r) && SameServerSide(r, r0)
            && UpToKeyExchange(env, r) == FirstFlight(env, r0) + ServerFlight(r0.ske, r0.request) + OptSent(clientCert)
                                          + [Sent(CLIENT_KEY_EXCHANGE, k.exchange.cke)]
  {
    hide HashedBytes, ParseBody, SkeParams, ServerHelloChoice, ChainOf, IsPartition, StreamPrefix, Preferred,
         NoneUsable, Marshal, Hello;
  }

  lemma GoodParts(env: Env, x: Run)
    requires GoodRun(env, x)
    ensures ServerSideGood(env, x) && x.suite.prf.Sound() && GoodKeys(env, x) && GoodClientAuth(env, x)
    ensures env.keyExchange(x.suite, x.chain, x.params) == Some(x.exchange)
    ensures MasterSecret(x.suite, x.exchange.preMaster, x.random, x.serverRandom) == Some(x.master)
  {
    hide GoodKeys, GoodClientAuth, ServerSideGood, MasterSecret, FinishedVerifyData, HashedBytes;
  }

  /** The checks of a run before the ChangeCipherSpecs. */
  ghost predicate CheckedBeforeFinished(env: Env, r: Run)
  {
    && r.suite.prf.Sound() && ServerSideGood(env, r) && GoodKeys(env, r) && GoodClientAuth(env, r)
    && env.keyExchange(r.suite, r.chain, r.params) == Some(r.exchange)
    && MasterSecret(r.suite, r.exchange.preMaster, r.random, r.serverRandom) == Some(r.master)
  }

  lemma CheckedSound(env: Env, r: Run)
    requires env.Sound() && CheckedBeforeFinished(env, r)
    ensures r.sendProt.Sound() && r.recvProt.Sound()
  {
    hide RecordLayer.Protector.Sound, GoodKeys, GoodClientAuth, ServerSideGood, MasterSecret;
    ProtectorsSound(env, r);
  }

  lemma FirstFlightsShort(env: Env, r: Run)
    ensures |FirstFlight(env, r) + ServerFlight(r.ske, r.request)| <= 6
  {
    hide Marshal, Hello;
  }

  lemma CompletedRun(env: Env, r: Run, clientVd: seq<byte>, serverVd: seq<byte>, trace: seq<Event>)
    requires r.suite.prf.Sound() && CheckedBeforeFinished(env, r)
    requires var t1 := UpToKeyExchange(env, r) + OptSent(r.certVerify) + [SentCcs] + [InstalledSend(r.sendProt)];
             var t2 := t1 + [Sent(FINISHED, clientVd)] + [ReceivedCcs] + [InstalledRecv(r.recvProt)];
             && trace == t2 + [Received(FINISHED, serverVd)]
             && FinishedVerifyData(r.suite, r.master, CLIENT_FINISHED_LABEL,
                                   r.suite.prf.digest(HashedBytes(t1))) == Some(clientVd)
             && FinishedVerifyData(r.suite, r.master, SERVER_FINISHED_LABEL,
                                   r.suite.prf.digest(HashedBytes(t2))) == Some(serverVd)
    ensures var r' := r.(clientFinished := clientVd, serverFinished := serverVd);
            GoodRun(env, r') && trace == RunTrace(env, r')
  {
    hide HashedBytes, MasterSecret, FinishedVerifyData, UpToKeyExchange, GoodKeys, GoodClientAuth, ServerSideGood,
         Marshal;
    Completed(env, r, clientVd, serverVd);
  }

  /** The Finished values are not part of what comes before them. */
  lemma Completed(env: Env, r: Run, clientVd: seq<byte>, serverVd: seq<byte>)
    requires r.suite.prf.Sound()
    ensures var r' := r.(clientFinished := clientVd, serverFinished := serverVd);
            && UpToKeyExchange(env, r') == UpToKeyExchange(env, r) && ServerMessages(r') == ServerMessages(r)
            && (GoodClientAuth(env, r) ==> GoodClientAuth(env, r'))
            && (GoodKeys(env, r) ==> GoodKeys(env, r'))
            && (ServerSideGood(env, r) ==> ServerSideGood(env, r'))
  {
    hide HashedBytes, Marshal, ParseBody, StreamPrefix, Preferred, NoneUsable, SkeParams, ServerHelloChoice, ChainOf,
         IsPartition;
  }

  lemma PreferredOrNone(alg: SigAndHash, certReq: Option<Message>, certs: seq<ClientCert>)
    requires Preferred(alg, certReq, certs)
    ensures !NoneUsable(certReq, certs)
    ensures forall other :: Preferred(other, certReq, certs) ==> other == alg
  {
  }

  /** Whether there is an algorithm to use, and which, is the same for any
      observer of a good run. */
  lemma ClientAuthDecided(env: Env, x: Run)
    requires GoodClientAuth(env, x) && NoLocalFailure(env, x)
    ensures env.Unfailing() && FitsRecord(ClientKeyExchange(x.exchange.cke))
    ensures x.clientCert.Some? <==> x.certReq.Some?
    ensures x.clientCert.Some? ==> x.clientCert.value == CertificateFor(env, x.certVerify.Some?)
    ensures x.clientCert.Some? ==> FitsRecord(x.clientCert.value)
    ensures x.certReq.Some? ==> (x.certVerify.Some? <==> !NoneUsable(x.certReq, env.certs))
    ensures x.certVerify.Some? ==>
              && x.certReq.Some? && x.certVerify.value.CertificateVerify? && KnownHash(x.certVerify.value.alg.hash)
              && env.certs != [] && FitsRecord(x.certVerify.value)
              && (forall other :: Preferred(other, x.certReq, env.certs) ==> other == x.certVerify.value.alg)
              && env.sign(env.certs[0].key, x.certVerify.value.alg,
                          env.digest(x.certVerify.value.alg.hash, HashedBytes(UpToKeyExchange(env, x))))
                 == Some(x.certVerify.value.signature)
    ensures |HashedBytes(UpToKeyExchange(env, x))| <= T.MAX_TRANSCRIPT
    ensures UpToKeyExchange(env, x) == FirstFlight(env, x) + ServerFlight(x.ske, x.request) + OptSent(x.clientCert)
                                       + [Sent(CLIENT_KEY_EXCHANGE, x.exchange.cke)]
    ensures |FirstFlight(env, x) + ServerFlight(x.ske, x.request)| <= 6
  {
    hide HashedBytes, ParseBody, Marshal, FitsRecord;
    if x.certVerify.Some? {
      PreferredOrNone(x.certVerify.value.alg, x.certReq, env.certs);
    }
    var more := OptSent(x.certVerify) + [SentCcs] + [InstalledSend(x.sendProt)] + [Sent(FINISHED, x.clientFinished)]
      + [ReceivedCcs] + [InstalledRecv(x.recvProt)];
    HashedPrefix(UpToKeyExchange(env, x), more);
    assert UpToKeyExchange(env, x) + more == UpToServerCcs(env, x);
  }

  lemma CkeMarshals(cke: seq<byte>)
    ensures Marshal(ClientKeyExchange(cke)) == cke
  {
  }

  lemma FinishedMarshals(vd: seq<byte>)
    ensures Marshal(Finished(vd)) == vd
  {
  }

  /** A CCS record or a protector change is no handshake message. */
  lemma Silent(tr: seq<Event>, e: Event)
    requires !e.Sent? && !e.Received?
    ensures Envelopes(tr + [e]) == Envelopes(tr)
  {
    EnvelopesSnoc(tr, e);
  }

  lemma SkeParses(body: seq<byte>)
    ensures ParseBody(SERVER_KEY_EXCHANGE, body) == Some(ServerKeyExchange(body))
  {
  }

  lemma DoneIsEmpty(body: seq<byte>)
    ensures ParseBody(SERVER_HELLO_DONE, body).Some? <==> body == []
  {
  }

  lemma FinishedParses(body: seq<byte>)
    ensures |body| == 12 || |body| == 32 ==> ParseBody(FINISHED, body).Some?
  {
  }

  lemma FinishedFits(s: Suite, vd: seq<byte>)
    requires |vd| == VerifyDataLen(s)
    ensures FitsRecord(Finished(vd))
  {
  }

  lemma FinishedBody(body: seq<byte>)
    requires ParseBody(FINISHED, body).Some?
    ensures ParseBody(FINISHED, body) == Some(Finished(body))
  {
  }

  ghost predicate EndsInAlert(tr: seq<Event>)
  {
    tr != [] && tr[|tr| - 1].Alert?
  }

  lemma RestShorter(buf: seq<byte>)
    ensures FrontOf(buf).Complete? ==> |FrontOf(buf).rest| <= |buf|
  {
  }

  lemma RestBound(buf: seq<byte>, payload: seq<byte>)
    requires FrontOf(buf).Incomplete? && |payload| <= RecordLayer.MAX_PLAINTEXT
    ensures FrontOf(buf + payload).Complete? ==> |FrontOf(buf + payload).rest| < RecordLayer.MAX_PLAINTEXT
  {
    if |buf| >= HS_HEADER {
      assert (buf + payload)[1..4] == buf[1..4];
    }
  }
}
