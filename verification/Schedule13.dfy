/**
 * The key schedule of section 7.1 of RFC 8446 as one diagram, independent of who computes it when, and
 * the proof that the handshake's scattered derivations follow it over the messages actually sent.
 */
module Schedule13 {
  import opened Bytes
  import opened Wire
  import opened KeySchedule
  import opened Handshake13
  import opened Agreement13
  import CH = ClientHello
  import SH = ServerHello
  import HelloParts

  /** The three secrets extracted one after the other, from the PSK and the ECDHE secret. */
  datatype Root = Root(k: Kdf, psk: Option<bytes>, shared: bytes)

  function Zeros(k: Kdf): bytes {
    Repeat(0, k.size)
  }

  function Early(r: Root): bytes {
    r.k.extract(if r.psk.Some? then r.psk.value else Zeros(r.k), [])
  }

  /** Derive-Secret(., "derived", ""). */
  function Bridge(k: Kdf, secret: bytes): bytes {
    k.expandLabel(secret, Derived, k.sum([]))
  }

  function HandshakeRoot(r: Root): bytes {
    r.k.extract(r.shared, Bridge(r.k, Early(r)))
  }

  function Master(r: Root): bytes {
    r.k.extract(Zeros(r.k), Bridge(r.k, HandshakeRoot(r)))
  }

  datatype Purpose = ClientHandshake | ServerHandshake | ClientApplication | ServerApplication | Exporter | ResumptionSecret

  /** Each secret hangs off one root under one label, over the transcript of the messages so far. */
  function Scheduled(r: Root, p: Purpose, transcript: bytes): bytes {
    match p
    case ClientHandshake => r.k.expandLabel(HandshakeRoot(r), ClientHandshakeTraffic, r.k.sum(transcript))
    case ServerHandshake => r.k.expandLabel(HandshakeRoot(r), ServerHandshakeTraffic, r.k.sum(transcript))
    case ClientApplication => r.k.expandLabel(Master(r), ClientApplicationTraffic, r.k.sum(transcript))
    case ServerApplication => r.k.expandLabel(Master(r), ServerApplicationTraffic, r.k.sum(transcript))
    case Exporter => r.k.expandLabel(Master(r), ExporterMaster, r.k.sum(transcript))
    case ResumptionSecret => r.k.expandLabel(Master(r), ResumptionMaster, r.k.sum(transcript))
  }

  /** Section 4.4.4: the Finished of a side, under its handshake traffic secret. */
  function FinishedOf(r: Root, p: Purpose, helloTranscript: bytes, transcript: bytes): bytes {
    r.k.hmac(r.k.expandLabel(Scheduled(r, p, helloTranscript), FinishedKey, []), r.k.sum(transcript))
  }

  /** The octets a list of messages adds to a transcript. */
  function Heard(env: Env, ms: seq<Message>): bytes {
    if ms == [] then [] else env.encode(ms[0]) + Heard(env, ms[1..])
  }

  lemma {:induction false} HeardAppend(env: Env, xs: seq<Message>, ys: seq<Message>)
    ensures Heard(env, xs + ys) == Heard(env, xs) + Heard(env, ys)
  {
    if xs == [] {
      assert xs + ys == ys;
    } else {
      assert (xs + ys)[1..] == xs[1..] + ys;
      HeardAppend(env, xs[1..], ys);
    }
  }

  /** The root of a server's schedule: its PSK, if it resumes, and its ECDHE secret. */
  function RootOf(env: Env, s: Server, psk: Option<bytes>): Root {
    Root(Kdf13(env, s.core), psk, s.shared)
  }

  /** The server's early secret is that of the PSK it resumes. */
  predicate EarlyFits(env: Env, s: Server, psk: Option<bytes>) {
    s.early == (if psk.Some? then Some(Extract(Kdf13(env, s.core), psk, [])) else None)
  }

  function AfterHellos(env: Env, s: Server): bytes {
    s.core.transcript + Heard(env, [ClientHelloMsg(s.clientHello), ServerHelloMsg(s.hello)])
  }

  /** Handshake traffic secrets cover the transcript through the ServerHello. */
  lemma ServerKeysScheduled(env: Env, s: Server, psk: Option<bytes>)
    requires EarlyFits(env, s, psk)
    ensures var (s1, r) := (ServerKeys(env, s), RootOf(env, s, psk));
            && s1.core.transcript == AfterHellos(env, s) && s1.handshakeSecret == HandshakeRoot(r)
            && s1.core.secrets.incoming == Scheduled(r, ClientHandshake, AfterHellos(env, s))
            && s1.core.secrets.outgoing == Scheduled(r, ServerHandshake, AfterHellos(env, s))
  {
    var (a, b) := (ClientHelloMsg(s.clientHello), ServerHelloMsg(s.hello));
    HeardTwo(env, s.core.transcript, a, b);
  }

  lemma HeardTwo(env: Env, t: bytes, a: Message, b: Message)
    ensures t + Heard(env, [a, b]) == t + env.encode(a) + env.encode(b)
  {
    assert [a, b][1..] == [b] && [b][1..] == [];
    assert Heard(env, [b]) == env.encode(b) + [] == env.encode(b);
  }

  lemma HeardOne(env: Env, t: bytes, a: Message)
    ensures t + Heard(env, [a]) == t + env.encode(a)
  {
    assert [a][1..] == [];
    assert Heard(env, [a]) == env.encode(a) + [] == env.encode(a);
  }

  /** The certificate messages the server sends are exactly what its transcript gains. */
  lemma CertificatesHeard(env: Env, s: Server, credential: Credential)
    ensures var (s1, ms) := SendServerCertificate(env, s, credential);
            s1.core.transcript == s.core.transcript + Heard(env, ms) && s1 == s.(core := s.core.(transcript := s1.core.transcript))
  {
    var (s1, ms) := SendServerCertificate(env, s, credential);
    var t := s.core.transcript;
    if s.core.usingPsk {
      assert t + [] == t;
    } else if RequestsClientCert(s) {
      HeardOne(env, t, CertificateRequest);
      HeardTwo(env, t + env.encode(CertificateRequest), ms[1], ms[2]);
      HeardAppend(env, [CertificateRequest], [ms[1], ms[2]]);
      assert ms == [CertificateRequest] + [ms[1], ms[2]];
    } else {
      HeardTwo(env, t, ms[0], ms[1]);
      assert ms == [ms[0], ms[1]];
    }
  }

  /** The server's flight: each secret and the Finished are the scheduled ones over the messages sent before. */
  lemma FlightScheduled(env: Env, s: Server, psk: Option<bytes>, credential: Credential)
    requires EarlyFits(env, s, psk) && ServerFlight(env, s, credential).Ok?
    ensures var (s4, parameters, flight) := ServerFlight(env, s, credential).value;
            var (r, hellos) := (RootOf(env, s, psk), AfterHellos(env, s));
            var n := |flight| - 1;
            var (before, after) := (hellos + Heard(env, [parameters] + flight[..n]), hellos + Heard(env, [parameters] + flight));
            && flight[n] == Finished(FinishedOf(r, ServerHandshake, hellos, before))
            && s4.core.transcript == after
            && s4.core.secrets.incoming == Scheduled(r, ClientHandshake, hellos)
            && s4.core.secrets.master == Master(r)
            && s4.core.secrets.outgoing == Scheduled(r, ServerApplication, after)
            && s4.core.secrets.clientApplication == Scheduled(r, ClientApplication, after)
            && s4.core.secrets.exporter == Scheduled(r, Exporter, after)
  {
    var s1 := ServerKeys(env, s);
    ServerKeysScheduled(env, s, psk);
    var (s2, parameters) := SendParameters(env, s1).value;
    HeardOne(env, s1.core.transcript, parameters);
    var (s3, certificates) := SendServerCertificate(env, s2, credential);
    CertificatesHeard(env, s2, credential);
    var (s4, finished) := SendServerFinished(env, s3);
    var flight := certificates + [finished];
    assert flight[..|flight| - 1] == certificates;
    FlightHeard(env, AfterHellos(env, s), parameters, certificates, finished);
  }

  lemma FlightHeard(env: Env, t: bytes, parameters: Message, certificates: seq<Message>, finished: Message)
    ensures t + Heard(env, [parameters] + certificates) == t + env.encode(parameters) + Heard(env, certificates)
    ensures t + Heard(env, [parameters] + (certificates + [finished])) == t + env.encode(parameters) + Heard(env, certificates) + env.encode(finished)
  {
    Prepended(env, t, parameters, certificates);
    Prepended(env, t, parameters, certificates + [finished]);
    HeardAppend(env, certificates, [finished]);
    HeardOne(env, Heard(env, certificates), finished);
    Regroup(t, env.encode(parameters), Heard(env, certificates), env.encode(finished));
  }

  lemma Prepended(env: Env, t: bytes, m: Message, ms: seq<Message>)
    ensures t + Heard(env, [m] + ms) == t + env.encode(m) + Heard(env, ms)
  {
    assert ([m] + ms)[1..] == ms;
  }

  lemma Regroup(t: bytes, a: bytes, b: bytes, c: bytes)
    ensures t + a + (b + c) == t + a + b + c
  {
  }

  /** The client's Finished and the resumption secret, computed by the server in advance, are the scheduled ones. */
  lemma TicketsScheduled(env: Env, s: Server, r: Root, hellos: bytes)
    requires r.k == Kdf13(env, s.core) && s.core.secrets.master == Master(r)
    requires s.core.secrets.incoming == Scheduled(r, ClientHandshake, hellos)
    ensures var s1 := SendSessionTickets(env, s).0;
            && s1.clientFinished == FinishedOf(r, ClientHandshake, hellos, s.core.transcript)
            && s1.core.transcript == s.core.transcript + env.encode(Finished(s1.clientFinished))
            && (SendsTickets(s) ==> s1.core.secrets.resumption == Some(Scheduled(r, ResumptionSecret, s1.core.transcript)))
  {
  }

  /** t is u with the client's application secret put in place for reading. */
  predicate Switched(t: Core, u: Core) {
    && t.suite == u.suite && t.secrets.master == u.secrets.master && t.secrets.outgoing == u.secrets.outgoing
    && t.secrets.clientApplication == u.secrets.clientApplication && t.secrets.exporter == u.secrets.exporter
    && t.secrets.incoming == u.secrets.clientApplication
  }

  predicate SameApplication(t: Core, u: Core) {
    && t.suite == u.suite && t.secrets.master == u.secrets.master && t.secrets.outgoing == u.secrets.outgoing
    && t.secrets.clientApplication == u.secrets.clientApplication && t.secrets.exporter == u.secrets.exporter
  }

  lemma TicketsKeep(env: Env, s: Server)
    ensures SameApplication(SendSessionTickets(env, s).0.core, s.core)
  {
  }

  lemma ReadingSwitches(env: Env, s: Server, flight: seq<Message>)
    requires ReadClientFlight(env, s, flight).Ok?
    ensures Switched(ReadClientFlight(env, s, flight).value.0.core, s.core)
  {
    if RequestsClientCert(s) {
      TicketsKeep(env, ReadClientCertificate(env, s, flight).value.0);
    }
  }

  /** The end of a run changes no application secret of the server; reading the Finished puts the client's in place. */
  lemma ConclusionKeeps(env: Env, conf: ClientConf, core: Core, s: Server, requested: bool)
    requires Conclude(env, conf, core, s, requested).Ok?
    ensures Switched(Conclude(env, conf, core, s, requested).value.server.core, s.core)
  {
    var s1 := if RequestsClientCert(s) then s else SendSessionTickets(env, s).0;
    TicketsKeep(env, s);
    var (core1, certificates) := SendClientCertificate(env, conf, core, requested);
    ReadingSwitches(env, s1, certificates + [SendClientFinished(env, conf, core1).1]);
  }

  /** The client's resumption secret covers its final transcript. */
  lemma ClientResumption(env: Env, conf: ClientConf, core: Core, s: Server, requested: bool)
    requires Conclude(env, conf, core, s, requested).Ok?
    ensures var c := Conclude(env, conf, core, s, requested).value.client;
            c.suite == core.suite &&
            (c.secrets.resumption.Some? ==> c.secrets.resumption.value == DeriveSecret(Kdf13(env, c), c.secrets.master, ResumptionMaster, c.transcript))
  {
  }

  /** A server at its Finished whose secrets are the diagram's. */
  ghost predicate AtServerFinished(env: Env, s: Server, r: Root, hellos: bytes, after: bytes) {
    && r.k == Kdf13(env, s.core) && s.core.transcript == after && s.core.secrets.resumption.None?
    && s.core.secrets.master == Master(r) && s.core.secrets.incoming == Scheduled(r, ClientHandshake, hellos)
    && s.core.secrets.outgoing == Scheduled(r, ServerApplication, after)
    && s.core.secrets.clientApplication == Scheduled(r, ClientApplication, after)
    && s.core.secrets.exporter == Scheduled(r, Exporter, after)
  }

  /** The server's resumption secret, if it made one, is the diagram's over its own transcript. */
  predicate ResumptionFits(r: Root, core: Core) {
    core.secrets.resumption.Some? ==> core.secrets.resumption.value == Scheduled(r, ResumptionSecret, core.transcript)
  }

  lemma TicketsFit(env: Env, s: Server, r: Root, hellos: bytes)
    requires r.k == Kdf13(env, s.core) && s.core.secrets.master == Master(r) && s.core.secrets.resumption.None?
    requires s.core.secrets.incoming == Scheduled(r, ClientHandshake, hellos)
    ensures ResumptionFits(r, SendSessionTickets(env, s).0.core)
  {
    TicketsScheduled(env, s, r, hellos);
  }

  lemma LateTicketsFit(env: Env, s: Server, flight: seq<Message>, r: Root, hellos: bytes)
    requires r.k == Kdf13(env, s.core) && s.core.secrets.master == Master(r) && s.core.secrets.resumption.None?
    requires s.core.secrets.incoming == Scheduled(r, ClientHandshake, hellos)
    requires RequestsClientCert(s) && ReadClientFlight(env, s, flight).Ok?
    ensures ResumptionFits(r, ReadClientFlight(env, s, flight).value.0.core)
  {
    TicketsFit(env, ReadClientCertificate(env, s, flight).value.0, r, hellos);
  }

  lemma EarlyTicketsFit(env: Env, s: Server, flight: seq<Message>, r: Root, hellos: bytes)
    requires r.k == Kdf13(env, s.core) && s.core.secrets.master == Master(r) && s.core.secrets.resumption.None?
    requires s.core.secrets.incoming == Scheduled(r, ClientHandshake, hellos)
    requires !RequestsClientCert(s) && ReadClientFlight(env, SendSessionTickets(env, s).0, flight).Ok?
    ensures ResumptionFits(r, ReadClientFlight(env, SendSessionTickets(env, s).0, flight).value.0.core)
  {
    TicketsFit(env, s, r, hellos);
  }

  lemma ServerResumption(env: Env, conf: ClientConf, core: Core, s: Server, requested: bool, r: Root, hellos: bytes, after: bytes)
    requires Conclude(env, conf, core, s, requested).Ok? && AtServerFinished(env, s, r, hellos, after)
    ensures ResumptionFits(r, Conclude(env, conf, core, s, requested).value.server.core)
  {
    var (core1, certificates) := SendClientCertificate(env, conf, core, requested);
    var flight := certificates + [SendClientFinished(env, conf, core1).1];
    if RequestsClientCert(s) {
      LateTicketsFit(env, s, flight, r, hellos);
    } else {
      EarlyTicketsFit(env, s, flight, r, hellos);
    }
  }

  /** The certificate messages the client sends are exactly what its transcript gains. */
  lemma ClientCertificatesHeard(env: Env, conf: ClientConf, core: Core, requested: bool)
    ensures var (core1, ms) := SendClientCertificate(env, conf, core, requested);
            core1 == core.(transcript := core.transcript + Heard(env, ms))
  {
    var (core1, ms) := SendClientCertificate(env, conf, core, requested);
    if !requested {
      assert core.transcript + [] == core.transcript;
    } else if conf.certificate.chain == [] {
      HeardOne(env, core.transcript, ms[0]);
    } else {
      HeardTwo(env, core.transcript, ms[0], ms[1]);
    }
  }

  /** The client's Finished is the diagram's, over everything both sides said before it. */
  lemma ClientFinishedScheduled(env: Env, conf: ClientConf, core: Core, s: Server, requested: bool, r: Root, hellos: bytes, after: bytes)
    requires Conclude(env, conf, core, s, requested).Ok? && AtServerFinished(env, s, r, hellos, after) && InStep(core, s.core)
    ensures var (done, certificates) := (Conclude(env, conf, core, s, requested).value, SendClientCertificate(env, conf, core, requested).1);
            var before := after + Heard(env, certificates);
            && done.clientFinished == Finished(FinishedOf(r, ClientHandshake, hellos, before))
            && done.client.transcript == before + env.encode(done.clientFinished)
  {
    ClientCertificatesHeard(env, conf, core, requested);
  }

  /** What both sides of an honest run hold in the end, in terms of the diagram and the messages exchanged. */
  ghost predicate HoldsSchedule(env: Env, r: Root, done: Completed, hellos: bytes, throughServer: bytes, certificates: seq<Message>) {
    var (c, s) := (done.client.secrets, done.server.core.secrets);
    var before := throughServer + Heard(env, certificates);
    && c.incoming == s.outgoing == Scheduled(r, ServerApplication, throughServer)
    && c.outgoing == s.incoming == Scheduled(r, ClientApplication, throughServer)
    && c.exporter == s.exporter == Scheduled(r, Exporter, throughServer)
    && done.clientFinished == Finished(FinishedOf(r, ClientHandshake, hellos, before))
    && done.client.transcript == done.server.core.transcript == before + env.encode(done.clientFinished)
    && ResumptionFits(r, done.client) && ResumptionFits(r, done.server.core)
  }

  /** The schedule at the server's Finished is the schedule at the end. */
  lemma ConclusionScheduled(env: Env, conf: ClientConf, core: Core, s: Server, requested: bool, r: Root, hellos: bytes, after: bytes)
    requires Conclude(env, conf, core, s, requested).Ok? && Concluded(Conclude(env, conf, core, s, requested).value)
    requires AtServerFinished(env, s, r, hellos, after) && InStep(core, s.core)
    ensures HoldsSchedule(env, r, Conclude(env, conf, core, s, requested).value, hellos, after, SendClientCertificate(env, conf, core, requested).1)
  {
    ConclusionKeeps(env, conf, core, s, requested);
    ClientResumption(env, conf, core, s, requested);
    ServerResumption(env, conf, core, s, requested, r, hellos, after);
    ClientFinishedScheduled(env, conf, core, s, requested, r, hellos, after);
  }

  function PickedOrNone(s: Server): Credential {
    if s.conf.pick(s.clientHello).Some? then s.conf.pick(s.clientHello).value else NO_CREDENTIAL
  }

  /** The transcript through the server's Finished, message by message. */
  function ThroughServer(env: Env, s: Server): bytes
    requires ServerFlight(env, s, PickedOrNone(s)).Ok?
  {
    var (_, parameters, flight) := ServerFlight(env, s, PickedOrNone(s)).value;
    AfterHellos(env, s) + Heard(env, [parameters] + flight)
  }

  /** An honest run from the ServerHello on ends with the secrets of the diagram over the messages it exchanged. */
  lemma ExchangeScheduled(env: Env, m: Meeting, d: Draws, psk: Option<bytes>) returns (certificates: seq<Message>)
    requires Met(env, m, d) && DrawsOk(d) && CredentialsOk(env, m.client.conf, m.server.conf, m.client.hello)
    requires EarlyFits(env, m.server, psk) && Exchange(env, m).Ok?
    ensures ServerFlight(env, m.server, PickedOrNone(m.server)).Ok?
    ensures HoldsSchedule(env, RootOf(env, m.server, psk), Exchange(env, m).value, AfterHellos(env, m.server), ThroughServer(env, m.server), certificates)
  {
    var credential := PickedOrNone(m.server);
    ExchangeAgrees(env, m, d);
    FlightScheduled(env, m.server, psk, credential);
    FlightsAgree(env, m, d, credential);
    FlightKeepsSuite(env, m.server, credential);
    var (s4, parameters, flight) := ServerFlight(env, m.server, credential).value;
    var (core, requested) := ReadFlight(env, m.client, m.core, m.server.hello, parameters, flight).value;
    ConclusionScheduled(env, m.client.conf, core, s4, requested, RootOf(env, m.server, psk), AfterHellos(env, m.server), ThroughServer(env, m.server));
    certificates := SendClientCertificate(env, m.client.conf, core, requested).1;
  }

  lemma FlightKeepsSuite(env: Env, s: Server, credential: Credential)
    requires ServerFlight(env, s, credential).Ok?
    ensures ServerFlight(env, s, credential).value.0.core.suite == s.core.suite
  {
  }

  /** A session state some ticket of the hello opens to. */
  ghost predicate Offered(conf: ServerConf, ch: CH.Hello, state: SessionState) {
    exists j :: 0 <= j < |ch.modern.pskIdentities| && conf.open(ch.modern.pskIdentities[j].identity) == Some(state)
  }

  /** The PSK of such a state. */
  ghost predicate FromTicket(env: Env, conf: ServerConf, ch: CH.Hello, suite: Suite, psk: Option<bytes>) {
    psk.Some? ==> exists state :: Offered(conf, ch, state) && psk.value == env.kdf(suite.hash).expandLabel(state.secret, Resumption, [])
  }

  /** A resuming server's early secret is that of the ticket's PSK. */
  lemma {:induction false} FoundPskFits(env: Env, conf: ServerConf, ch: CH.Hello, suite: Suite, transcript: bytes, i: nat) returns (state: SessionState)
    requires |ch.modern.pskIdentities| == |ch.modern.pskBinders|
    requires FindPsk(env, conf, ch, suite, transcript, i).Ok? && FindPsk(env, conf, ch, suite, transcript, i).value.Some?
    ensures var k := env.kdf(suite.hash);
            FindPsk(env, conf, ch, suite, transcript, i).value.value.early == Extract(k, Some(k.expandLabel(state.secret, Resumption, [])), [])
    ensures Offered(conf, ch, state)
    decreases |ch.modern.pskIdentities| - i
  {
    var found := UsableTicket(conf, suite, ch.modern.pskIdentities[i].identity);
    if found.Some? {
      state := found.value;
      assert conf.open(ch.modern.pskIdentities[i].identity) == Some(state);
    } else {
      state := FoundPskFits(env, conf, ch, suite, transcript, i + 1);
    }
  }

  lemma PreparedFits(env: Env, conf: ServerConf, ch: CH.Hello, suite: Suite, group: u16, share: HelloParts.KeyShare, transcript: bytes,
                     random: bytes, secret: bytes) returns (psk: Option<bytes>)
    requires PrepareServer(env, conf, ch, suite, group, share, transcript, random, secret).Ok?
    ensures EarlyFits(env, PrepareServer(env, conf, ch, suite, group, share, transcript, random, secret).value, psk)
    ensures FromTicket(env, conf, ch, suite, psk)
  {
    var found := CheckForResumption(env, conf, ch, suite, transcript).value;
    if found.None? {
      return None;
    }
    var state := FoundPskFits(env, conf, ch, suite, transcript, 0);
    psk := Some(env.kdf(suite.hash).expandLabel(state.secret, Resumption, []));
  }

  lemma MeetingFits(env: Env, c: Client, conf: ServerConf, d: Draws) returns (psk: Option<bytes>)
    requires Meet(env, c, conf, d).Ok?
    ensures var s := Meet(env, c, conf, d).value.server; EarlyFits(env, s, psk) && FromTicket(env, conf, s.clientHello, s.core.suite, psk)
  {
    var offer := AcceptHello(conf, c.hello).value;
    if offer.share.Some? {
      psk := PreparedFits(env, conf, c.hello, offer.suite, offer.group, offer.share.value, [], d.serverRandom, d.serverSecret);
    } else {
      psk := RetriedFits(env, c, conf, offer, d);
    }
  }

  lemma RetriedFits(env: Env, c: Client, conf: ServerConf, offer: Offer, d: Draws) returns (psk: Option<bytes>)
    requires MeetAfterRetry(env, c, conf, offer, d).Ok?
    ensures var s := MeetAfterRetry(env, c, conf, offer, d).value.server;
            EarlyFits(env, s, psk) && FromTicket(env, conf, s.clientHello, s.core.suite, psk)
  {
    var (hrr, transcript) := RetryRequest(env, c.hello, offer.suite, offer.group);
    var suite := CheckServerHello(c.hello, None, hrr).value;
    var c2 := ClientRetry(env, c, FirstCore(env, suite, c.hello), hrr, d.retrySecret, d.retryAge).value.0;
    var share := AcceptSecondHello(c.hello, c2.hello, offer.group).value;
    psk := PreparedFits(env, conf, c2.hello, offer.suite, offer.group, share, transcript, d.serverRandom, d.serverSecret);
  }

  /** Handshake traffic secrets of both sides after the ServerHello. */
  ghost predicate HandshakeScheduled(env: Env, r: Root, m: Meeting) {
    var (c, s, hellos) := (OnServerHello(env, m.client, m.core, m.server.hello), ServerKeys(env, m.server).core.secrets, AfterHellos(env, m.server));
    && c.Ok? && c.value.secrets.outgoing == s.incoming == Scheduled(r, ClientHandshake, hellos)
    && c.value.secrets.incoming == s.outgoing == Scheduled(r, ServerHandshake, hellos)
    && c.value.secrets.master == Master(r)
  }

  lemma HandshakeSecretsScheduled(env: Env, m: Meeting, d: Draws, psk: Option<bytes>)
    requires Met(env, m, d) && DrawsOk(d) && EarlyFits(env, m.server, psk)
    ensures HandshakeScheduled(env, RootOf(env, m.server, psk), m)
  {
    HandshakeKeysAgree(env, m, d);
    ServerKeysScheduled(env, m.server, psk);
  }

  /**
   * Every honest run that completes follows the diagram throughout: handshake secrets over the hellos,
   * application and exporter secrets over the messages through the server's Finished, the client's
   * Finished over all that came before it, resumption secrets over the whole exchange, all from one PSK
   * (or none) and one ECDHE secret, and equal on both sides.
   */
  lemma HonestRunFollowsSchedule(env: Env, conf: ClientConf, hello: CH.Hello, key: PrivateKey, session: Option<Session>, age: u32,
                                 sconf: ServerConf, d: Draws) returns (m: Meeting, r: Root, certificates: seq<Message>)
    requires HelloOk(env, hello, key) && DrawsOk(d) && (session.Some? ==> SessionOk(sconf, session.value))
    requires forall ch :: CredentialsOk(env, conf, sconf, ch)
    requires !RetriesWithPsk(sconf, StartClient(env, conf, hello, key, session, age))
    requires Run(env, StartClient(env, conf, hello, key, session, age), sconf, d).Ok?
    ensures Meet(env, StartClient(env, conf, hello, key, session, age), sconf, d) == Ok(m)
    ensures r.k == Kdf13(env, m.server.core) && r.shared == m.server.shared && (r.psk.Some? <==> m.server.core.usingPsk)
    ensures FromTicket(env, sconf, m.server.clientHello, m.server.core.suite, r.psk) && HandshakeScheduled(env, r, m)
    ensures ServerFlight(env, m.server, PickedOrNone(m.server)).Ok?
    ensures HoldsSchedule(env, r, Run(env, StartClient(env, conf, hello, key, session, age), sconf, d).value,
                          AfterHellos(env, m.server), ThroughServer(env, m.server), certificates)
  {
    var c := StartClient(env, conf, hello, key, session, age);
    StartedOffers(env, conf, hello, key, session, age);
    HonestMeeting(env, c, sconf, d);
    m := Meet(env, c, sconf, d).value;
    assert CredentialsOk(env, conf, sconf, m.client.hello);
    var psk := MeetingFits(env, c, sconf, d);
    r := RootOf(env, m.server, psk);
    HandshakeSecretsScheduled(env, m, d, psk);
    certificates := ExchangeScheduled(env, m, d, psk);
  }
}
