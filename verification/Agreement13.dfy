/**
 * The two sides of the TLS 1.3 handshake together: in every honest run transcripts and secrets agree
 * at each derivation, and nothing fails but for lack of overlap or local policy.
 */
module Agreement13 {
  import opened Bytes
  import opened Wire
  import opened HelloParts
  import opened KeySchedule
  import opened Handshake13
  import CH = ClientHello
  import SH = ServerHello
  import Binders
  import Codec = ClientHelloCodec

  /** What makeClientHello guarantees of its hello and key. */
  ghost predicate HelloOk(env: Env, hello: CH.Hello, key: PrivateKey) {
    && hello.modern.keyShares == [KeyShare(key.group, env.curves.public(key.group, key.secret))]
    && key.group != 0 && env.curves.supported(key.group)
    && hello.modern.supportedVersions != [] && hello.compressionMethods == [0] && hello.common.secureRenegotiation == []
    && !hello.modern.earlyData && hello.modern.cookie == [] && hello.common.signatureAlgorithms != []
  }

  /** A cached session is known to the server, if at all, with the same suite and secret. */
  ghost predicate SessionOk(conf: ServerConf, session: Session) {
    && SuiteById(session.suite.id) == Some(session.suite)
    && match conf.open(session.ticket)
       case None => true
       case Some(state) => state.suite == session.suite.id && state.secret == session.secret && session.nonce == []
  }

  /** Certificates belong to their keys. */
  ghost predicate CredentialsOk(env: Env, conf: ClientConf, sconf: ServerConf, ch: CH.Hello) {
    && (conf.certificate.chain != [] ==> env.signatures.owns(conf.certificate.chain, conf.certificate.key))
    && match sconf.pick(ch)
       case None => true
       case Some(credential) => credential.chain != [] && env.signatures.owns(credential.chain, credential.key)
  }

  /** A client whose offer, if any, is for its session and carries a binder made for its hello. */
  ghost predicate Offers(env: Env, c: Client, prefix: bytes) {
    match c.session
    case None => c.hello.modern.pskIdentities == [] && c.hello.modern.pskBinders == []
    case Some(session) =>
      var k := env.kdf(session.suite.hash);
      && (exists age :: c.hello.modern.pskIdentities == [CH.PskIdentity(session.ticket, age)])
      && c.early == Extract(k, Some(k.expandLabel(session.secret, Resumption, session.nonce)), [])
      && c.binderKey == DeriveSecret(k, c.early, ResumptionBinder, [])
      && c.hello.modern.pskBinders == [FinishedHash(k, c.binderKey, prefix + env.truncate(c.hello))]
  }

  lemma StartedOffers(env: Env, conf: ClientConf, hello: CH.Hello, key: PrivateKey, session: Option<Session>, age: u32)
    requires HelloOk(env, hello, key)
    ensures var c := StartClient(env, conf, hello, key, session, age);
            HelloOk(env, c.hello, key) && c.key == key && c.session == session && c.conf == conf && Offers(env, c, [])
  {
    if session.Some? {
      var k := env.kdf(session.value.suite.hash);
      var blank := WithPsk(hello, [CH.PskIdentity(session.value.ticket, age)], [Repeat(0, k.size)]);
      var c := StartClient(env, conf, hello, key, session, age);
      assert IgnoresBinders(env.truncate, blank, c.hello.modern.pskBinders);
      assert [] + env.truncate(blank) == env.truncate(blank);
      assert c.hello.modern.pskIdentities == [CH.PskIdentity(session.value.ticket, age)];
    }
  }

  /** Values drawn at random during a run; a server random is never the retry constant. */
  datatype Draws = Draws(serverRandom: bytes, serverSecret: bytes, retrySecret: bytes, retryAge: u32)

  ghost predicate DrawsOk(d: Draws) {
    d.serverRandom != HELLO_RETRY_RANDOM
  }

  /** Both sides when the server has settled its ServerHello and the client is about to read it. */
  datatype Meeting = Meeting(client: Client, core: Core, server: Server)

  function FirstCore(env: Env, suite: Suite, hello: CH.Hello): Core {
    Core(suite, env.encode(ClientHelloMsg(hello)), false, NO_SECRETS)
  }

  function MeetDirectly(env: Env, c: Client, conf: ServerConf, offer: Offer, d: Draws): Result<Meeting>
    requires offer.share.Some?
  {
    var s :- PrepareServer(env, conf, c.hello, offer.suite, offer.group, offer.share.value, [], d.serverRandom, d.serverSecret);
    var suite :- CheckServerHello(c.hello, None, s.hello);
    Ok(Meeting(c, FirstCore(env, suite, c.hello), s))
  }

  function MeetAfterRetry(env: Env, c: Client, conf: ServerConf, offer: Offer, d: Draws): Result<Meeting> {
    var (hrr, transcript) := RetryRequest(env, c.hello, offer.suite, offer.group);
    var suite :- CheckServerHello(c.hello, None, hrr);
    var (c2, core) :- ClientRetry(env, c, FirstCore(env, suite, c.hello), hrr, d.retrySecret, d.retryAge);
    var share :- AcceptSecondHello(c.hello, c2.hello, offer.group);
    var s :- PrepareServer(env, conf, c2.hello, offer.suite, offer.group, share, transcript, d.serverRandom, d.serverSecret);
    var _ :- CheckServerHello(c2.hello, Some(suite), s.hello);
    Ok(Meeting(c2, core, s))
  }

  /** An honest run up to the ServerHello. */
  function Meet(env: Env, c: Client, conf: ServerConf, d: Draws): Result<Meeting> {
    var offer :- AcceptHello(conf, c.hello);
    if offer.share.Some? then MeetDirectly(env, c, conf, offer, d) else MeetAfterRetry(env, c, conf, offer, d)
  }

  /** Transcripts agree once the server adds the ClientHello it answers. */
  predicate TranscriptsMeet(env: Env, m: Meeting) {
    m.core.transcript == m.server.core.transcript + env.encode(ClientHelloMsg(m.server.clientHello))
  }

  /** The two key shares fit together. */
  ghost predicate SharesMeet(env: Env, c: Client, s: Server, secret: bytes) {
    var group := c.key.group;
    && group != 0 && env.curves.supported(group)
    && s.hello.modern.serverShare == KeyShare(group, env.curves.public(group, secret))
    && env.curves.agree(group, secret, env.curves.public(group, c.key.secret)) == Some(s.shared)
  }

  /** Both sides agree on resumption and on the early secret. */
  ghost predicate PskMeets(c: Client, suite: Suite, s: Server) {
    && s.early == (if s.core.usingPsk then Some(c.early) else None)
    && s.hello.modern.selectedIdentityPresent == s.core.usingPsk
    && (s.core.usingPsk ==>
          s.hello.modern.selectedIdentity == 0 && |c.hello.modern.pskIdentities| == 1 && c.session.Some? && c.session.value.suite.hash == suite.hash)
  }

  ghost predicate Met(env: Env, m: Meeting, d: Draws) {
    && SuiteById(m.core.suite.id) == Some(m.core.suite)
    && m.core.suite == m.server.core.suite && !m.core.usingPsk && m.core.secrets == NO_SECRETS == m.server.core.secrets
    && TranscriptsMeet(env, m) && m.server.clientHello == m.client.hello
    && m.server.hello.random == d.serverRandom && m.server.hello.modern.cookie == [] && m.server.hello.modern.selectedGroup == 0
    && SharesMeet(env, m.client, m.server, d.serverSecret) && PskMeets(m.client, m.core.suite, m.server)
    && (!m.server.core.usingPsk ==> m.server.conf.pick(m.client.hello).Some?)
  }

  lemma {:induction false} SelectedSuite(preference: seq<u16>, offered: seq<u16>)
    ensures match SelectSuite(preference, offered)
            case None => forall id :: id in preference ==> MutualSuite(offered, id).None?
            case Some(suite) => suite.id in preference && suite.id in offered && SuiteById(suite.id) == Some(suite)
  {
    if preference != [] && MutualSuite(offered, preference[0]).None? {
      SelectedSuite(preference[1..], offered);
    }
  }

  lemma {:induction false} FirstShareFound(shares: seq<KeyShare>, group: u16)
    ensures match FirstShare(shares, group)
            case None => forall i :: 0 <= i < |shares| ==> shares[i].group != group
            case Some(share) => share in shares && share.group == group
  {
    if shares != [] && shares[0].group != group {
      FirstShareFound(shares[1..], group);
    }
  }

  /** A share for a preferred group wins; without one, the group is preferred, supported and has no share. */
  lemma {:induction false} SelectedGroup(preference: seq<u16>, shares: seq<KeyShare>, curves: seq<u16>, selected: u16)
    ensures var (group, share) := SelectGroup(preference, shares, curves, selected);
            match share
            case Some(share) => share in shares && share.group == group && group in preference
            case None =>
              && (forall i :: 0 <= i < |shares| ==> shares[i].group !in preference)
              && (group == selected || (group in preference && group in curves))
  {
    if preference != [] {
      FirstShareFound(shares, preference[0]);
      SelectedGroup(preference[1..], shares, curves, if selected == 0 && preference[0] in curves then preference[0] else selected);
    }
  }

  predicate OffersNothing(c: Client) {
    c.hello.modern.pskIdentities == [] && c.hello.modern.pskBinders == []
  }

  ghost predicate OfferOk(env: Env, c: Client, prefix: bytes) {
    OffersNothing(c) || Offers(env, c, prefix)
  }

  /** The server accepts the binder of an honest client and derives the client's early secret. */
  lemma ResumptionAgrees(env: Env, conf: ServerConf, c: Client, suite: Suite, transcript: bytes)
    requires OfferOk(env, c, transcript) && (c.session.Some? ==> SessionOk(conf, c.session.value))
    ensures match CheckForResumption(env, conf, c.hello, suite, transcript)
            case Err(failure) => failure == Refused
            case Ok(None) =>
              || conf.ticketsDisabled || PSK_MODE_DHE !in c.hello.modern.pskModes || c.hello.modern.pskIdentities == []
              || UsableTicket(conf, suite, c.hello.modern.pskIdentities[0].identity).None?
            case Ok(Some(psk)) =>
              psk.index == 0 && psk.early == c.early && c.session.Some? && c.session.value.suite.hash == suite.hash && |c.hello.modern.pskIdentities| == 1
  {
    var identities := c.hello.modern.pskIdentities;
    if identities != [] && UsableTicket(conf, suite, identities[0].identity).None? && |c.hello.modern.pskBinders| == 1 {
      assert FindPsk(env, conf, c.hello, suite, transcript, 1) == Ok(None);
    }
  }

  /** The ServerHello a server answers with. */
  ghost predicate Answers(c: Client, suite: Suite, transcript: bytes, d: Draws, conf: ServerConf, s: Server) {
    && s.conf == conf && s.clientHello == c.hello && s.core == Core(suite, transcript, s.core.usingPsk, NO_SECRETS)
    && s.hello == HelloFor(c.hello, suite, d.serverRandom, s.hello.modern)
    && s.hello.modern.cookie == [] && s.hello.modern.selectedGroup == 0
    && (!s.core.usingPsk ==> conf.pick(c.hello).Some?)
  }

  lemma PreparedMeets(env: Env, c: Client, conf: ServerConf, suite: Suite, share: KeyShare, transcript: bytes, d: Draws)
    requires OfferOk(env, c, transcript) && (c.session.Some? ==> SessionOk(conf, c.session.value))
    requires c.key.group != 0 && env.curves.supported(c.key.group) && c.hello.common.signatureAlgorithms != []
    requires share == KeyShare(c.key.group, env.curves.public(c.key.group, c.key.secret))
    ensures match PrepareServer(env, conf, c.hello, suite, c.key.group, share, transcript, d.serverRandom, d.serverSecret)
            case Err(failure) => failure == Refused
            case Ok(s) => SharesMeet(env, c, s, d.serverSecret) && PskMeets(c, suite, s) && Answers(c, suite, transcript, d, conf, s)
  {
    assert Commutes(env.curves, c.key.group, d.serverSecret, c.key.secret);
    ResumptionAgrees(env, conf, c, suite, transcript);
  }

  lemma AnswerChecks(hello: CH.Hello, suite: Suite, random: bytes, modern: SH.Modern, earlier: Option<Suite>)
    requires suite.id in hello.cipherSuites && SuiteById(suite.id) == Some(suite) && (earlier.Some? ==> earlier.value == suite)
    ensures CheckServerHello(hello, earlier, HelloFor(hello, suite, random, modern)) == Ok(suite)
  {
  }

  /** Without a retry both sides meet. */
  lemma MeetsDirectly(env: Env, c: Client, conf: ServerConf, offer: Offer, d: Draws)
    requires HelloOk(env, c.hello, c.key) && Offers(env, c, []) && (c.session.Some? ==> SessionOk(conf, c.session.value))
    requires AcceptHello(conf, c.hello) == Ok(offer) && offer.share.Some?
    ensures match MeetDirectly(env, c, conf, offer, d)
            case Err(failure) => failure == Refused
            case Ok(m) => Met(env, m, d) && m.client == c && m.server.conf == conf
  {
    SelectedSuite(conf.suitePreference, c.hello.cipherSuites);
    SelectedGroup(conf.curvePreference, c.hello.modern.keyShares, c.hello.common.supportedCurves, 0);
    var share := offer.share.value;
    assert share == c.hello.modern.keyShares[0];
    PreparedMeets(env, c, conf, offer.suite, share, [], d);
    var r := PrepareServer(env, conf, c.hello, offer.suite, offer.group, share, [], d.serverRandom, d.serverSecret);
    if r.Ok? {
      AnswerChecks(c.hello, offer.suite, d.serverRandom, r.value.hello.modern, None);
      assert [] + env.encode(ClientHelloMsg(c.hello)) == env.encode(ClientHelloMsg(c.hello));
    }
  }

  /** What a retry with the server's own request does to an honest client. */
  lemma RetriedClient(env: Env, c: Client, suite: Suite, group: u16, d: Draws)
    requires HelloOk(env, c.hello, c.key) && Offers(env, c, [])
    requires group != 0 && group != c.key.group && group in c.hello.common.supportedCurves
    ensures var (hrr, transcript) := RetryRequest(env, c.hello, suite, group);
            match ClientRetry(env, c, FirstCore(env, suite, c.hello), hrr, d.retrySecret, d.retryAge)
            case Err(failure) => failure == Refused
            case Ok((c2, core)) =>
              && env.curves.supported(group) && c2.key == PrivateKey(group, d.retrySecret) && c2.session == c.session && c2.conf == c.conf
              && c2.hello.modern.keyShares == [KeyShare(group, env.curves.public(group, d.retrySecret))]
              && !IllegalChange(c2.hello, c.hello) && !c2.hello.modern.earlyData && c2.hello.cipherSuites == c.hello.cipherSuites
              && core.suite == suite && !core.usingPsk && core.secrets == NO_SECRETS
              && (!RetainsPsk(c, suite) ==>
                    OffersNothing(c2) && core.transcript == transcript + env.encode(ClientHelloMsg(c2.hello)))
              && (RetainsPsk(c, suite) ==>
                    core.transcript == transcript + env.encode(ServerHelloMsg(hrr)) + env.encode(ClientHelloMsg(c2.hello)))
  {
  }

  lemma MeetsAfterRetry(env: Env, c: Client, conf: ServerConf, offer: Offer, d: Draws)
    requires HelloOk(env, c.hello, c.key) && Offers(env, c, []) && (c.session.Some? ==> SessionOk(conf, c.session.value))
    requires AcceptHello(conf, c.hello) == Ok(offer) && offer.share.None? && !RetainsPsk(c, offer.suite)
    ensures match MeetAfterRetry(env, c, conf, offer, d)
            case Err(failure) => failure == Refused
            case Ok(m) => Met(env, m, d) && m.client.conf == c.conf && m.server.conf == conf
  {
    SelectedSuite(conf.suitePreference, c.hello.cipherSuites);
    SelectedGroup(conf.curvePreference, c.hello.modern.keyShares, c.hello.common.supportedCurves, 0);
    assert c.hello.modern.keyShares[0].group !in conf.curvePreference;
    var (hrr, transcript) := RetryRequest(env, c.hello, offer.suite, offer.group);
    AnswerChecks(c.hello, offer.suite, HELLO_RETRY_RANDOM, SH.NO_MODERN.(selectedGroup := offer.group), None);
    RetriedClient(env, c, offer.suite, offer.group, d);
    var r := ClientRetry(env, c, FirstCore(env, offer.suite, c.hello), hrr, d.retrySecret, d.retryAge);
    if r.Ok? {
      var c2 := r.value.0;
      var share := c2.hello.modern.keyShares[0];
      PreparedMeets(env, c2, conf, offer.suite, share, transcript, d);
      var p := PrepareServer(env, conf, c2.hello, offer.suite, offer.group, share, transcript, d.serverRandom, d.serverSecret);
      if p.Ok? {
        AnswerChecks(c2.hello, offer.suite, d.serverRandom, p.value.hello.modern, Some(offer.suite));
      }
    }
  }

  /** The server asks for another key share, and the client's PSK fits the selected suite. */
  predicate RetriesWithPsk(conf: ServerConf, c: Client) {
    var offer := AcceptHello(conf, c.hello);
    offer.Ok? && offer.value.share.None? && RetainsPsk(c, offer.value.suite)
  }

  lemma PreparedKeeps(env: Env, conf: ServerConf, ch: CH.Hello, suite: Suite, group: u16, share: KeyShare, transcript: bytes, random: bytes, secret: bytes)
    ensures match PrepareServer(env, conf, ch, suite, group, share, transcript, random, secret)
            case Err(_) => true
            case Ok(s) =>
              && s.clientHello == ch && s.core.suite == suite && s.core.transcript == transcript
              && s.hello.modern.selectedIdentityPresent == s.core.usingPsk
  {
  }

  /**
   * A retried hello that still offers a PSK puts the HelloRetryRequest into the client's transcript
   * twice; that is the only way an honest run can get transcripts out of step.
   */
  lemma TranscriptsMeetExactly(env: Env, c: Client, conf: ServerConf, d: Draws)
    requires HelloOk(env, c.hello, c.key) && Offers(env, c, []) && (c.session.Some? ==> SessionOk(conf, c.session.value))
    requires Meet(env, c, conf, d).Ok? && forall m: Message :: env.encode(m) != []
    ensures TranscriptsMeet(env, Meet(env, c, conf, d).value) <==> !RetriesWithPsk(conf, c)
  {
    var offer := AcceptHello(conf, c.hello).value;
    if offer.share.Some? {
      MeetsDirectly(env, c, conf, offer, d);
    } else if !RetainsPsk(c, offer.suite) {
      MeetsAfterRetry(env, c, conf, offer, d);
    } else {
      var n := RetainedPskIsAhead(env, c, conf, offer, d);
    }
  }

  /** Both sides hold the same transcript, and each sends under the secret the other receives under. */
  predicate InStep(c: Core, s: Core) {
    && c.suite == s.suite && c.transcript == s.transcript && c.usingPsk == s.usingPsk
    && c.secrets.incoming == s.secrets.outgoing && c.secrets.outgoing == s.secrets.incoming
  }

  /** The client already holds the master secret the server will derive. */
  predicate MasterReady(env: Env, c: Core, s: Server) {
    var k := Kdf13(env, c);
    c.secrets.master == Extract(k, None, DeriveSecret(k, s.handshakeSecret, Derived, []))
  }

  /** Handshake traffic secrets agree after the ServerHello. */
  lemma HandshakeKeysAgree(env: Env, m: Meeting, d: Draws)
    requires Met(env, m, d) && DrawsOk(d)
    ensures var (r, s) := (OnServerHello(env, m.client, m.core, m.server.hello), ServerKeys(env, m.server));
            r.Ok? && InStep(r.value, s.core) && MasterReady(env, r.value, s) && r.value.secrets.resumption == None
  {
    assert Commutes(env.curves, m.client.key.group, m.client.key.secret, d.serverSecret);
  }

  lemma AlpnAgrees(serverProtocols: seq<bytes>, clientProtocols: seq<bytes>)
    ensures match NegotiateAlpn(serverProtocols, clientProtocols)
            case None => true
            case Some(protocol) => AlpnOk(clientProtocols, protocol)
  {
  }

  lemma ParametersAgree(env: Env, c: Core, s: Server)
    requires InStep(c, s.core)
    ensures match SendParameters(env, s)
            case Err(failure) => failure == Refused
            case Ok((s1, m)) =>
              var r := ReadServerParameters(env, c, s.clientHello, m);
              && r.Ok? && InStep(r.value, s1.core) && r.value.secrets == c.secrets
              && s1 == s.(core := s1.core) && s1.core.secrets == s.core.secrets && s1.core.usingPsk == s.core.usingPsk
  {
    AlpnAgrees(s.conf.protocols, s.clientHello.common.alpnProtocols);
  }

  /** The server's certificate flight leaves both sides in step, or the client does not accept the chain. */
  lemma CertificatesAgree(env: Env, conf: ClientConf, c: Core, s: Server, credential: Credential, rest: seq<Message>)
    requires InStep(c, s.core) && rest != []
    requires !s.core.usingPsk ==> credential.chain != [] && env.signatures.owns(credential.chain, credential.key)
    ensures var (s1, certificates) := SendServerCertificate(env, s, credential);
            match ReadServerCertificate(env, conf, c, certificates + rest)
            case Err(failure) => failure == Refused
            case Ok((c1, requested, left)) =>
              && left == rest && requested == RequestsClientCert(s) && InStep(c1, s1.core) && c1.secrets == c.secrets
              && s1 == s.(core := s1.core) && s1.core.secrets == s.core.secrets && s1.core.usingPsk == s.core.usingPsk
  {
    var (s1, certificates) := SendServerCertificate(env, s, credential);
    var all := certificates + rest;
    if !s.core.usingPsk {
      var core0 := if RequestsClientCert(s) then Add(env, s.core, CertificateRequest) else s.core;
      assert Verifies(env.signatures, credential.chain, credential.key, Signed(env, true, Add(env, core0, Certificate(credential.chain))));
      if RequestsClientCert(s) {
        assert all == [CertificateRequest, certificates[1], certificates[2]] + rest && all[3..] == rest;
      } else {
        assert all == [certificates[0], certificates[1]] + rest && all[2..] == rest;
      }
    } else {
      assert all == rest;
    }
  }

  /** In step with equal application, exporter and master secrets. */
  predicate ApplicationReady(c: Core, s: Core) {
    && InStep(c, s) && c.secrets.master == s.secrets.master
    && c.secrets.clientApplication == s.secrets.clientApplication && c.secrets.exporter == s.secrets.exporter
  }

  /** The server's Finished verifies, and application secrets agree after it. */
  lemma ServerFinishedAgrees(env: Env, c: Core, s: Server)
    requires InStep(c, s.core) && MasterReady(env, c, s)
    ensures var (s1, m) := SendServerFinished(env, s);
            var r := ReadServerFinished(env, c, m);
            && r.Ok? && ApplicationReady(r.value, s1.core) && s1 == s.(core := s1.core) && s1.core.usingPsk == s.core.usingPsk
  {
  }

  /** The client's certificate flight leaves both sides in step, or the server does not accept the chain. */
  lemma ClientCertificateAgrees(env: Env, conf: ClientConf, c: Core, s: Server, rest: seq<Message>)
    requires ApplicationReady(c, s.core)
    requires conf.certificate.chain != [] ==> env.signatures.owns(conf.certificate.chain, conf.certificate.key)
    ensures var (c1, messages) := SendClientCertificate(env, conf, c, true);
            match ReadClientCertificate(env, s, messages + rest)
            case Err(failure) => failure == Refused
            case Ok((s1, left)) =>
              left == rest && ApplicationReady(c1, s1.core) && s1 == s.(core := s1.core, peerChain := conf.certificate.chain) && s1.core.secrets == s.core.secrets
  {
    var (c1, messages) := SendClientCertificate(env, conf, c, true);
    var all := messages + rest;
    if conf.certificate.chain == [] {
      assert all[1..] == rest;
    } else {
      assert Verifies(env.signatures, conf.certificate.chain, conf.certificate.key, Signed(env, false, Add(env, c, Certificate(conf.certificate.chain))));
      assert all[2..] == rest;
    }
  }

  /** Agreement at the end: mirrored application traffic secrets, one transcript, one resumption secret. */
  predicate Agreed(c: Core, s: Core) {
    && ApplicationReady(c, s) && c.secrets.outgoing == c.secrets.clientApplication
    && (c.secrets.resumption.Some? && s.secrets.resumption.Some? ==> c.secrets.resumption == s.secrets.resumption)
  }

  /** The Finished the server computes in advance is the one the client sends. */
  lemma PrecomputedFinished(env: Env, conf: ClientConf, c: Core, s: Server)
    requires ApplicationReady(c, s.core) && s.core.secrets.resumption.None?
    ensures var (s1, _) := SendSessionTickets(env, s);
            var (c1, finished) := SendClientFinished(env, conf, c);
            && finished == Finished(s1.clientFinished) && c1.transcript == s1.core.transcript
            && ReadClientFinished(s1, finished).Ok? && Agreed(c1, ReadClientFinished(s1, finished).value.core)
  {
  }

  datatype Completed = Completed(client: Core, server: Server, clientFinished: Message, tickets: seq<Message>)

  /** The server's flight after the ServerHello: its state and its messages. */
  function ServerFlight(env: Env, s: Server, credential: Credential): Result<(Server, Message, seq<Message>)> {
    var (s2, parameters) :- SendParameters(env, ServerKeys(env, s));
    var (s3, certificates) := SendServerCertificate(env, s2, credential);
    var (s4, finished) := SendServerFinished(env, s3);
    Ok((s4, parameters, certificates + [finished]))
  }

  /** The client reads that flight; the result says whether a certificate is wanted. */
  function ReadFlight(env: Env, c: Client, core: Core, sh: SH.Hello, parameters: Message, flight: seq<Message>): Result<(Core, bool)> {
    var c1 :- OnServerHello(env, c, core, sh);
    var c2 :- ReadServerParameters(env, c1, c.hello, parameters);
    var (c3, requested, rest) :- ReadServerCertificate(env, c.conf, c2, flight);
    if rest == [] then Err(Unexpected)
    else
      var c4 :- ReadServerFinished(env, c3, rest[0]);
      Ok((c4, requested))
  }

  /** The server reads the client's flight; with a certificate request the ticket comes only now. */
  function ReadClientFlight(env: Env, s: Server, flight: seq<Message>): Result<(Server, seq<Message>)> {
    if !RequestsClientCert(s) then
      if flight == [] then Err(Unexpected)
      else
        var s1 :- ReadClientFinished(s, flight[0]);
        Ok((s1, []))
    else
      var (s1, rest) :- ReadClientCertificate(env, s, flight);
      var (s2, tickets) := SendSessionTickets(env, s1);
      if rest == [] then Err(Unexpected)
      else
        var s3 :- ReadClientFinished(s2, rest[0]);
        Ok((s3, tickets))
  }

  const NO_CREDENTIAL := Credential([], [])

  /** From the server's Finished on: the ticket sent early, the client's flight, the ticket sent late. */
  function Conclude(env: Env, conf: ClientConf, core: Core, s: Server, requested: bool): Result<Completed> {
    var (s1, early) := if RequestsClientCert(s) then (s, []) else SendSessionTickets(env, s);
    var (core1, certificates) := SendClientCertificate(env, conf, core, requested);
    var (core2, finished) := SendClientFinished(env, conf, core1);
    var (s2, late) :- ReadClientFlight(env, s1, certificates + [finished]);
    Ok(Completed(core2, s2, finished, early + late))
  }

  /** An honest run from the ServerHello on. */
  function Exchange(env: Env, m: Meeting): Result<Completed> {
    var picked := m.server.conf.pick(m.server.clientHello);
    var (s, parameters, flight) :- ServerFlight(env, m.server, if picked.Some? then picked.value else NO_CREDENTIAL);
    var (core, requested) :- ReadFlight(env, m.client, m.core, m.server.hello, parameters, flight);
    Conclude(env, m.client.conf, core, s, requested)
  }

  /** A whole honest run of the two handshakes. */
  function Run(env: Env, c: Client, conf: ServerConf, d: Draws): Result<Completed> {
    var m :- Meet(env, c, conf, d);
    Exchange(env, m)
  }

  /** After both flights up to the server's Finished: what the client and the server hold. */
  lemma FlightsAgree(env: Env, m: Meeting, d: Draws, credential: Credential)
    requires Met(env, m, d) && DrawsOk(d)
    requires !m.server.core.usingPsk ==> credential.chain != [] && env.signatures.owns(credential.chain, credential.key)
    ensures match ServerFlight(env, m.server, credential)
            case Err(failure) => failure == Refused
            case Ok((s4, parameters, flight)) =>
              && s4.core.secrets.resumption.None? && s4.conf == m.server.conf
              && match ReadFlight(env, m.client, m.core, m.server.hello, parameters, flight)
                 case Err(failure) => failure == Refused
                 case Ok((c4, requested)) => ApplicationReady(c4, s4.core) && requested == RequestsClientCert(s4) && c4.suite == m.core.suite
  {
    HandshakeKeysAgree(env, m, d);
    var (c1, s1) := (OnServerHello(env, m.client, m.core, m.server.hello).value, ServerKeys(env, m.server));
    ParametersAgree(env, c1, s1);
    var r := SendParameters(env, s1);
    if r.Ok? {
      var (s2, parameters) := r.value;
      var c2 := ReadServerParameters(env, c1, m.client.hello, parameters).value;
      var (s3, certificates) := SendServerCertificate(env, s2, credential);
      var (s4, finished) := SendServerFinished(env, s3);
      CertificatesAgree(env, m.client.conf, c2, s2, credential, [finished]);
      var certified := ReadServerCertificate(env, m.client.conf, c2, certificates + [finished]);
      if certified.Ok? {
        ServerFinishedAgrees(env, certified.value.0, s3);
      }
    }
  }

  /** A ticket that holds the server's resumption secret and the client certificates it knows. */
  ghost predicate TicketFor(s: Server, t: Message) {
    s.core.secrets.resumption.Some? &&
    t == NewSessionTicket(s.conf.seal(SessionState(s.core.suite.id, s.core.secrets.resumption.value, s.peerChain)), [], TICKET_LIFETIME)
  }

  ghost predicate Concluded(c: Completed) {
    && SuiteById(c.client.suite.id) == Some(c.client.suite) && Agreed(c.client, c.server.core) && c.clientFinished == Finished(c.server.clientFinished)
    && forall t :: t in c.tickets ==> TicketFor(c.server, t)
  }

  lemma TicketsHold(env: Env, s: Server, m: Message)
    ensures var (s1, tickets) := SendSessionTickets(env, s);
            match ReadClientFinished(s1, m)
            case Err(_) => true
            case Ok(s2) => forall t :: t in tickets ==> TicketFor(s2, t)
  {
  }

  /** The end of a run in which the server does not ask for a certificate. */
  lemma ConcludesPlainly(env: Env, conf: ClientConf, c: Core, s: Server)
    requires SuiteById(c.suite.id) == Some(c.suite)
    requires ApplicationReady(c, s.core) && s.core.secrets.resumption.None? && !RequestsClientCert(s)
    ensures var (s1, early) := SendSessionTickets(env, s);
            var (c1, finished) := SendClientFinished(env, conf, c);
            var r := ReadClientFlight(env, s1, [] + [finished]);
            r.Ok? && Concluded(Completed(c1, r.value.0, finished, early + r.value.1)) && r.value.0.core.usingPsk == c.usingPsk
  {
    PrecomputedFinished(env, conf, c, s);
    TicketsHold(env, s, SendClientFinished(env, conf, c).1);
  }

  /** And one in which it does. */
  lemma ConcludesWithCertificate(env: Env, conf: ClientConf, c: Core, s: Server)
    requires SuiteById(c.suite.id) == Some(c.suite)
    requires ApplicationReady(c, s.core) && s.core.secrets.resumption.None? && RequestsClientCert(s)
    requires conf.certificate.chain != [] ==> env.signatures.owns(conf.certificate.chain, conf.certificate.key)
    ensures var (c1, certificates) := SendClientCertificate(env, conf, c, true);
            var (c2, finished) := SendClientFinished(env, conf, c1);
            match ReadClientFlight(env, s, certificates + [finished])
            case Err(failure) => failure == Refused
            case Ok((s2, late)) => Concluded(Completed(c2, s2, finished, [] + late)) && s2.core.usingPsk == c.usingPsk
  {
    var (c1, certificates) := SendClientCertificate(env, conf, c, true);
    var (c2, finished) := SendClientFinished(env, conf, c1);
    ClientCertificateAgrees(env, conf, c, s, [finished]);
    var r := ReadClientCertificate(env, s, certificates + [finished]);
    if r.Ok? {
      PrecomputedFinished(env, conf, c1, r.value.0);
      TicketsHold(env, r.value.0, finished);
    }
  }

  lemma ConclusionAgrees(env: Env, conf: ClientConf, c: Core, s: Server)
    requires SuiteById(c.suite.id) == Some(c.suite)
    requires ApplicationReady(c, s.core) && s.core.secrets.resumption.None?
    requires conf.certificate.chain != [] ==> env.signatures.owns(conf.certificate.chain, conf.certificate.key)
    ensures match Conclude(env, conf, c, s, RequestsClientCert(s))
            case Err(failure) => failure == Refused
            case Ok(done) => Concluded(done) && done.server.conf == s.conf
  {
    if RequestsClientCert(s) {
      ConcludesWithCertificate(env, conf, c, s);
    } else {
      ConcludesPlainly(env, conf, c, s);
    }
  }

  lemma ExchangeAgrees(env: Env, m: Meeting, d: Draws)
    requires Met(env, m, d) && DrawsOk(d) && CredentialsOk(env, m.client.conf, m.server.conf, m.client.hello)
    ensures match Exchange(env, m)
            case Err(failure) => failure == Refused
            case Ok(done) => Concluded(done) && done.server.conf == m.server.conf
  {
    var picked := m.server.conf.pick(m.server.clientHello);
    var credential := if picked.Some? then picked.value else NO_CREDENTIAL;
    FlightsAgree(env, m, d, credential);
    var f := ServerFlight(env, m.server, credential);
    if f.Ok? {
      var r := ReadFlight(env, m.client, m.core, m.server.hello, f.value.1, f.value.2);
      if r.Ok? {
        ConclusionAgrees(env, m.client.conf, r.value.0, f.value.0);
      }
    }
  }

  /** Up to the ServerHello an honest run stops only by refusal, unless a retry keeps a PSK. */
  lemma HonestMeeting(env: Env, c: Client, conf: ServerConf, d: Draws)
    requires HelloOk(env, c.hello, c.key) && Offers(env, c, []) && (c.session.Some? ==> SessionOk(conf, c.session.value))
    requires !RetriesWithPsk(conf, c)
    ensures match Meet(env, c, conf, d)
            case Err(failure) => failure == Refused
            case Ok(m) => Met(env, m, d) && m.client.conf == c.conf && m.server.conf == conf
  {
    var offer := AcceptHello(conf, c.hello);
    if offer.Ok? {
      if offer.value.share.Some? {
        MeetsDirectly(env, c, conf, offer.value, d);
      } else {
        MeetsAfterRetry(env, c, conf, offer.value, d);
      }
    }
  }

  /**
   * Two-party agreement. In every run between an honest client and an honest server, resuming or not,
   * with or without client certificates, with or without a retry (as long as a retry does not keep a
   * PSK): the run either stops for lack of overlap or local policy, or both sides finish with one
   * transcript, mirrored traffic secrets, equal master, exporter and resumption secrets, the client's
   * Finished being the one the server had computed in advance.
   */
  lemma HonestHandshake(env: Env, conf: ClientConf, hello: CH.Hello, key: PrivateKey, session: Option<Session>, age: u32, sconf: ServerConf, d: Draws)
    requires HelloOk(env, hello, key) && DrawsOk(d) && (session.Some? ==> SessionOk(sconf, session.value))
    requires forall ch :: CredentialsOk(env, conf, sconf, ch)
    requires !RetriesWithPsk(sconf, StartClient(env, conf, hello, key, session, age))
    ensures match Run(env, StartClient(env, conf, hello, key, session, age), sconf, d)
            case Err(failure) => failure == Refused
            case Ok(done) => Concluded(done) && done.server.conf == sconf
  {
    StartedOffers(env, conf, hello, key, session, age);
    RunAgrees(env, StartClient(env, conf, hello, key, session, age), sconf, d);
  }

  lemma RunAgrees(env: Env, c: Client, conf: ServerConf, d: Draws)
    requires HelloOk(env, c.hello, c.key) && Offers(env, c, []) && (c.session.Some? ==> SessionOk(conf, c.session.value))
    requires !RetriesWithPsk(conf, c) && DrawsOk(d) && forall ch :: CredentialsOk(env, c.conf, conf, ch)
    ensures match Run(env, c, conf, d)
            case Err(failure) => failure == Refused
            case Ok(done) => Concluded(done) && done.server.conf == conf
  {
    HonestMeeting(env, c, conf, d);
    var m := Meet(env, c, conf, d);
    if m.Ok? {
      assert CredentialsOk(env, c.conf, conf, m.value.client.hello);
      ExchangeAgrees(env, m.value, d);
    }
  }

  ghost predicate TicketsOpen(conf: ServerConf, state: SessionState) {
    conf.open(conf.seal(state)) == None || conf.open(conf.seal(state)) == Some(state)
  }

  /** A ticket from an agreed run gives the client a session that fits the precondition of the next run. */
  lemma TicketResumes(conf: ClientConf, done: Completed, t: Message)
    requires Concluded(done) && t in done.tickets
    requires forall state :: TicketsOpen(done.server.conf, state)
    ensures match HandleTicket(conf, done.client, t)
            case Err(failure) => failure == Refused
            case Ok(None) => !conf.keepsSessions
            case Ok(Some(session)) => SessionOk(done.server.conf, session) && session.suite == done.client.suite
  {
    assert TicketFor(done.server, t);
    var (suite, secret) := (done.server.core.suite, done.server.core.secrets.resumption.value);
    assert TicketsOpen(done.server.conf, SessionState(suite.id, secret, done.server.peerChain));
  }

  /** Both sides at the server's Finished: just read by the client, just sent by the server. */
  function AtFinished(env: Env, m: Meeting): Result<(Core, Server)> {
    var picked := m.server.conf.pick(m.server.clientHello);
    var (s2, parameters) :- SendParameters(env, ServerKeys(env, m.server));
    var (s3, certificates) := SendServerCertificate(env, s2, if picked.Some? then picked.value else NO_CREDENTIAL);
    var c1 :- OnServerHello(env, m.client, m.core, m.server.hello);
    var c2 :- ReadServerParameters(env, c1, m.client.hello, parameters);
    var (c3, _, _) :- ReadServerCertificate(env, m.client.conf, c2, certificates + [SendServerFinished(env, s3).1]);
    Ok((c3, s3))
  }

  /** Two different transcripts with the same Finished. */
  predicate Collision(env: Env, c: Core, s: Server) {
    && c.transcript != s.core.transcript
    && FinishedHash(Kdf13(env, c), c.secrets.incoming, c.transcript) == FinishedHash(Kdf13(env, s.core), s.core.secrets.outgoing, s.core.transcript)
  }

  /** The client has heard n octets more than the server has said. */
  predicate AheadBy(c: Core, s: Core, n: nat) {
    c.suite == s.suite && c.usingPsk == s.usingPsk && |c.transcript| == |s.transcript| + n
  }

  lemma AheadAfterServerHello(env: Env, m: Meeting, n: nat)
    requires m.core.suite == m.server.core.suite && m.server.hello.modern.selectedIdentityPresent == m.server.core.usingPsk
    requires |m.core.transcript| == |m.server.core.transcript| + |env.encode(ClientHelloMsg(m.server.clientHello))| + n
    requires OnServerHello(env, m.client, m.core, m.server.hello).Ok?
    ensures AheadBy(OnServerHello(env, m.client, m.core, m.server.hello).value, ServerKeys(env, m.server).core, n)
  {
  }

  lemma AheadAfterCertificates(env: Env, conf: ClientConf, c: Core, s: Server, n: nat, credential: Credential, finished: Message)
    requires AheadBy(c, s.core, n) && finished.Finished?
    ensures var (s1, certificates) := SendServerCertificate(env, s, credential);
            match ReadServerCertificate(env, conf, c, certificates + [finished])
            case Err(_) => true
            case Ok((c1, _, rest)) => AheadBy(c1, s1.core, n) && rest == [finished]
  {
    var (s1, certificates) := SendServerCertificate(env, s, credential);
    var all := certificates + [finished];
    if s.core.usingPsk {
      assert all == [finished];
    } else if RequestsClientCert(s) {
      assert all[3..] == [finished];
    } else {
      assert all[2..] == [finished] && all[0] == Certificate(credential.chain);
    }
  }

  lemma AheadAtFinished(env: Env, conf: ClientConf, c: Core, s: Server, n: nat, credential: Credential)
    requires AheadBy(c, s.core, n) && n > 0
    ensures var (s1, certificates) := SendServerCertificate(env, s, credential);
            var finished := SendServerFinished(env, s1).1;
            match ReadServerCertificate(env, conf, c, certificates + [finished])
            case Err(_) => true
            case Ok((c1, _, rest)) => rest == [finished] && (ReadServerFinished(env, c1, finished).Ok? ==> Collision(env, c1, s1))
  {
    var s1 := SendServerCertificate(env, s, credential).0;
    AheadAfterCertificates(env, conf, c, s, n, credential, SendServerFinished(env, s1).1);
  }

  /** A client that is ahead gets past the server's Finished only by a collision. */
  lemma AheadNeedsCollision(env: Env, m: Meeting, n: nat, credential: Credential)
    requires m.core.suite == m.server.core.suite && m.server.hello.modern.selectedIdentityPresent == m.server.core.usingPsk
    requires n > 0 && |m.core.transcript| == |m.server.core.transcript| + |env.encode(ClientHelloMsg(m.server.clientHello))| + n
    requires credential == (if m.server.conf.pick(m.server.clientHello).Some? then m.server.conf.pick(m.server.clientHello).value else NO_CREDENTIAL)
    requires ServerFlight(env, m.server, credential).Ok?
    requires ReadFlight(env, m.client, m.core, m.server.hello, ServerFlight(env, m.server, credential).value.1, ServerFlight(env, m.server, credential).value.2).Ok?
    ensures AtFinished(env, m).Ok? && Collision(env, AtFinished(env, m).value.0, AtFinished(env, m).value.1)
  {
    var c1 := OnServerHello(env, m.client, m.core, m.server.hello);
    AheadAfterServerHello(env, m, n);
    var (s2, parameters) := SendParameters(env, ServerKeys(env, m.server)).value;
    var c2 := ReadServerParameters(env, c1.value, m.client.hello, parameters);
    AheadAtFinished(env, m.client.conf, c2.value, s2, n, credential);
  }

  lemma ExchangeNeedsCollision(env: Env, m: Meeting, n: nat)
    requires m.core.suite == m.server.core.suite && m.server.hello.modern.selectedIdentityPresent == m.server.core.usingPsk
    requires n > 0 && |m.core.transcript| == |m.server.core.transcript| + |env.encode(ClientHelloMsg(m.server.clientHello))| + n
    ensures Exchange(env, m).Ok? ==> AtFinished(env, m).Ok? && Collision(env, AtFinished(env, m).value.0, AtFinished(env, m).value.1)
  {
    if Exchange(env, m).Ok? {
      var picked := m.server.conf.pick(m.server.clientHello);
      AheadNeedsCollision(env, m, n, if picked.Some? then picked.value else NO_CREDENTIAL);
    }
  }

  lemma RetainedPskIsAhead(env: Env, c: Client, conf: ServerConf, offer: Offer, d: Draws) returns (n: nat)
    requires HelloOk(env, c.hello, c.key) && Offers(env, c, []) && AcceptHello(conf, c.hello) == Ok(offer)
    requires offer.share.None? && RetainsPsk(c, offer.suite) && MeetAfterRetry(env, c, conf, offer, d).Ok?
    requires forall m: Message :: env.encode(m) != []
    ensures var m := MeetAfterRetry(env, c, conf, offer, d).value;
            && n > 0 && |m.core.transcript| == |m.server.core.transcript| + |env.encode(ClientHelloMsg(m.server.clientHello))| + n
            && m.core.suite == m.server.core.suite && m.server.hello.modern.selectedIdentityPresent == m.server.core.usingPsk
  {
    SelectedSuite(conf.suitePreference, c.hello.cipherSuites);
    SelectedGroup(conf.curvePreference, c.hello.modern.keyShares, c.hello.common.supportedCurves, 0);
    assert c.hello.modern.keyShares[0].group !in conf.curvePreference;
    var (hrr, transcript) := RetryRequest(env, c.hello, offer.suite, offer.group);
    AnswerChecks(c.hello, offer.suite, HELLO_RETRY_RANDOM, SH.NO_MODERN.(selectedGroup := offer.group), None);
    RetriedClient(env, c, offer.suite, offer.group, d);
    var c2 := ClientRetry(env, c, FirstCore(env, offer.suite, c.hello), hrr, d.retrySecret, d.retryAge).value.0;
    PreparedKeeps(env, conf, c2.hello, offer.suite, offer.group, c2.hello.modern.keyShares[0], transcript, d.serverRandom, d.serverSecret);
    n := |env.encode(ServerHelloMsg(hrr))|;
    assert env.encode(ServerHelloMsg(hrr)) != [];
  }

  /** A run whose retry keeps a PSK completes only if two different transcripts have the same Finished. */
  lemma RetriedPskNeedsCollision(env: Env, c: Client, conf: ServerConf, d: Draws)
    requires HelloOk(env, c.hello, c.key) && Offers(env, c, []) && RetriesWithPsk(conf, c)
    requires forall m: Message :: env.encode(m) != []
    ensures Run(env, c, conf, d).Ok? ==>
              && Meet(env, c, conf, d).Ok?
              && var m := Meet(env, c, conf, d).value;
                 AtFinished(env, m).Ok? && Collision(env, AtFinished(env, m).value.0, AtFinished(env, m).value.1)
  {
    var offer := AcceptHello(conf, c.hello).value;
    var m := MeetAfterRetry(env, c, conf, offer, d);
    if m.Ok? {
      var n := RetainedPskIsAhead(env, c, conf, offer, d);
      ExchangeNeedsCollision(env, m.value, n);
    }
  }

  /** The truncation of a ClientHello the codec computes. */
  function TruncatedHello(m: CH.Hello): bytes {
    var (full, tail) := (Codec.HelloBytes(m), Binders.BinderBytes(m.modern.pskBinders));
    if |tail| <= |full| then full[..|full| - |tail|] else full
  }

  /** It has the property the handshake relies on. */
  lemma TruncationIgnoresBinders(m: CH.Hello, binders: seq<bytes>)
    ensures IgnoresBinders(TruncatedHello, m, binders)
  {
    if m.modern.pskIdentities != [] && Binders.SameLengths(m.modern.pskBinders, binders) {
      var common := Binders.HelloDiffersInBinders(m, binders);
      CutBoth(Codec.HelloBytes(m), Codec.HelloBytes(Binders.WithBinders(m, binders)), common,
              Binders.BinderBytes(m.modern.pskBinders), Binders.BinderBytes(binders));
    }
  }

  lemma CutBoth(x: bytes, y: bytes, common: bytes, a: bytes, b: bytes)
    requires Binders.DifferAtEnd(x, y, common, a, b)
    ensures |a| <= |x| && |b| <= |y| && x[..|x| - |a|] == y[..|y| - |b|]
  {
  }
}
