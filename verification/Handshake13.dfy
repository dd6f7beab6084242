/**
 * handshake_client_tls13.go and handshake_server_tls13.go: what each step of the TLS 1.3 handshake does
 * to the transcript and the secrets, as functions of the state and the message at hand.
 */
module Handshake13 {
  import opened Bytes
  import opened Wire
  import opened HelloParts
  import opened KeySchedule
  import CH = ClientHello
  import SH = ServerHello
  import Binders

  datatype Hash = Sha256 | Sha384

  datatype Suite = Suite(id: u16, hash: Hash)

  function SuiteById(id: u16): Option<Suite> {
    if id == 0x1301 || id == 0x1303 then Some(Suite(id, Sha256))
    else if id == 0x1302 then Some(Suite(id, Sha384))
    else None
  }

  /** mutualCipherSuiteTLS13. */
  function MutualSuite(have: seq<u16>, want: u16): Option<Suite> {
    if want in have then SuiteById(want) else None
  }

  datatype PrivateKey = PrivateKey(group: u16, secret: bytes)

  datatype CurveOps = CurveOps(
    supported: u16 -> bool,
    public: (u16, bytes) -> bytes,
    agree: (u16, bytes, bytes) -> Option<bytes>)

  ghost predicate Commutes(c: CurveOps, group: u16, a: bytes, b: bytes) {
    c.supported(group) ==>
      && c.agree(group, a, c.public(group, b)) == c.agree(group, b, c.public(group, a))
      && c.agree(group, a, c.public(group, b)).Some?
  }

  /** Diffie-Hellman on honest keys succeeds and commutes. */
  type Curves = c: CurveOps | forall group, a, b :: Commutes(c, group, a, b)
    ghost witness CurveOps(_ => false, (_, _) => [], (_, _, _) => None)

  datatype SignatureOps = SignatureOps(
    owns: (seq<bytes>, bytes) -> bool,
    sign: (bytes, bytes) -> bytes,
    verify: (seq<bytes>, bytes, bytes) -> bool)

  ghost predicate Verifies(g: SignatureOps, chain: seq<bytes>, key: bytes, content: bytes) {
    g.owns(chain, key) ==> g.verify(chain, content, g.sign(key, content))
  }

  /** A signature verifies under the certificate of its key. */
  type Signatures = g: SignatureOps | forall chain, key, content :: Verifies(g, chain, key, content)
    ghost witness SignatureOps((_, _) => false, (_, _) => [], (_, _, _) => false)

  datatype Message =
    | ClientHelloMsg(clientHello: CH.Hello)
    | ServerHelloMsg(serverHello: SH.Hello)
    | EncryptedExtensions(alpn: bytes)
    | CertificateRequest
    | Certificate(chain: seq<bytes>)
    | CertificateVerify(signature: bytes)
    | Finished(verifyData: bytes)
    | NewSessionTicket(ticket: bytes, nonce: bytes, lifetime: nat)

  ghost predicate IgnoresBinders(truncate: CH.Hello -> bytes, m: CH.Hello, binders: seq<bytes>) {
    m.modern.pskIdentities != [] && Binders.SameLengths(m.modern.pskBinders, binders)
    ==> truncate(Binders.WithBinders(m, binders)) == truncate(m)
  }

  /** marshalWithoutBinders: it does not depend on what the binders are. */
  type Truncation = t: CH.Hello -> bytes | forall m, binders :: IgnoresBinders(t, m, binders)
    ghost witness _ => []

  /** The functions both sides share. */
  datatype Env = Env(
    kdf: Hash -> Kdf,
    curves: Curves,
    signatures: Signatures,
    signedMessage: (bool, bytes) -> bytes,
    encode: Message -> bytes,
    truncate: Truncation)

  /** Why a handshake stops: local policy or lack of overlap, a peer that broke the protocol, or a failed proof. */
  datatype Failure = Refused | Illegal | Unexpected | BadFinished | BadBinder | BadSignature

  datatype Result<+T> = Ok(value: T) | Err(failure: Failure) {
    predicate IsFailure() {
      Err?
    }
    function PropagateFailure<U>(): Result<U>
      requires IsFailure()
    {
      Err(failure)
    }
    function Extract(): T
      requires !IsFailure()
    {
      value
    }
  }

  /** The traffic secrets of the two half-connections, and the secrets kept for later. */
  datatype Secrets = Secrets(
    incoming: bytes,
    outgoing: bytes,
    master: bytes,
    clientApplication: bytes,
    exporter: bytes,
    resumption: Option<bytes>)

  const NO_SECRETS := Secrets([], [], [], [], [], None)

  /** The state both handshake objects have. */
  datatype Core = Core(suite: Suite, transcript: bytes, usingPsk: bool, secrets: Secrets)

  function Kdf13(env: Env, core: Core): Kdf {
    env.kdf(core.suite.hash)
  }

  /** transcriptMsg. */
  function Add(env: Env, core: Core, m: Message): Core {
    core.(transcript := core.transcript + env.encode(m))
  }

  const TYPE_MESSAGE_HASH: byte := 254
  const PSK_MODE_DHE: byte := 1

  /** Seven days, in seconds. */
  const TICKET_LIFETIME := 604800
  const MAX_CLIENT_PSK_IDENTITIES := 5
  const HELLO_RETRY_RANDOM: bytes := [
    0xCF, 0x21, 0xAD, 0x74, 0xE5, 0x9A, 0x61, 0x11, 0xBE, 0x1D, 0x8C, 0x02, 0x1E, 0x65, 0xB8, 0x91,
    0xC2, 0xA2, 0x11, 0x16, 0x7A, 0xBB, 0x8C, 0x5E, 0x07, 0x9E, 0x09, 0xE2, 0xC8, 0xA8, 0x33, 0x9C]

  /** What stands for the first ClientHello after a HelloRetryRequest. */
  function MessageHash(k: Kdf, first: bytes): bytes {
    [TYPE_MESSAGE_HASH, 0, 0, Low(|k.sum(first)|)] + k.sum(first)
  }

  // The client.

  /** A cached session: what handleNewSessionTicket stored. */
  datatype Session = Session(ticket: bytes, suite: Suite, secret: bytes, nonce: bytes)

  datatype Credential = Credential(chain: seq<bytes>, key: bytes)

  /** `certificate` is what getClientCertificate returns; its chain may be empty. */
  datatype ClientConf = ClientConf(
    accepts: seq<bytes> -> bool,
    certificate: Credential,
    keepsSessions: bool)

  datatype Client = Client(
    conf: ClientConf,
    hello: CH.Hello,
    key: PrivateKey,
    session: Option<Session>,
    early: bytes,
    binderKey: bytes)

  function WithPsk(hello: CH.Hello, identities: seq<CH.PskIdentity>, binders: seq<bytes>): CH.Hello {
    hello.(modern := hello.modern.(pskIdentities := identities, pskBinders := binders))
  }

  function WithShare(hello: CH.Hello, share: KeyShare): CH.Hello {
    hello.(modern := hello.modern.(keyShares := [share]))
  }

  /** The PSK part of loadSession: offer the session, with a binder over the truncated hello. */
  function OfferSession(env: Env, conf: ClientConf, hello: CH.Hello, key: PrivateKey, session: Session, age: u32): Client {
    var k := env.kdf(session.suite.hash);
    var blank := WithPsk(hello, [CH.PskIdentity(session.ticket, age)], [Repeat(0, k.size)]);
    var early := Extract(k, Some(k.expandLabel(session.secret, Resumption, session.nonce)), []);
    var binderKey := DeriveSecret(k, early, ResumptionBinder, []);
    Client(conf, Binders.WithBinders(blank, [FinishedHash(k, binderKey, env.truncate(blank))]), key, Some(session), early, binderKey)
  }

  function StartClient(env: Env, conf: ClientConf, hello: CH.Hello, key: PrivateKey, session: Option<Session>, age: u32): Client {
    if session.None? then Client(conf, WithPsk(hello, [], []), key, None, [], [])
    else OfferSession(env, conf, hello, key, session.value, age)
  }

  predicate ForbiddenExtensions(c: SH.Common) {
    c.ocspStapling || c.ticketSupported || c.secureRenegotiationSupported || c.secureRenegotiation != [] || c.alpnProtocol != [] || c.scts != []
  }

  /** checkServerHelloOrHRR: the suite, unless something is wrong. */
  function CheckServerHello(hello: CH.Hello, suite: Option<Suite>, sh: SH.Hello): Result<Suite> {
    if sh.modern.supportedVersion != VERSION_TLS13 || sh.vers != VERSION_TLS12 then Err(Illegal)
    else if ForbiddenExtensions(sh.common) || hello.sessionId != sh.sessionId || sh.compressionMethod != 0 then Err(Illegal)
    else
      match MutualSuite(hello.cipherSuites, sh.cipherSuite)
      case None => Err(Illegal)
      case Some(selected) => if suite.Some? && selected != suite.value then Err(Illegal) else Ok(selected)
  }

  /** The group part of processHelloRetryRequest. */
  function RetryKey(env: Env, c: Client, hrr: SH.Hello, secret: bytes): Result<Client> {
    var group := hrr.modern.selectedGroup;
    if group == 0 then Ok(c)
    else if group !in c.hello.common.supportedCurves || group == c.key.group then Err(Illegal)
    else if !env.curves.supported(group) then Err(Refused)
    else
      var key := PrivateKey(group, secret);
      Ok(c.(key := key, hello := WithShare(c.hello, KeyShare(group, env.curves.public(group, secret)))))
  }

  /** Whether a retry keeps the PSK: its hash must be that of the selected suite. */
  predicate RetainsPsk(c: Client, suite: Suite) {
    c.hello.modern.pskIdentities != [] && c.session.Some? && c.session.value.suite.hash == suite.hash
  }

  /**
   * The PSK part of processHelloRetryRequest. The second HelloRetryRequest goes to the handshake's
   * transcript, not to the one the binder is computed over.
   */
  function RetryPsk(env: Env, c: Client, core: Core, hrr: SH.Hello, messageHash: bytes, age: u32): (Client, Core) {
    if !RetainsPsk(c, core.suite) then (c.(hello := WithPsk(c.hello, [], [])), core)
    else
      var identities := c.hello.modern.pskIdentities;
      var hello := WithPsk(c.hello, [identities[0].(obfuscatedTicketAge := age)] + identities[1..], c.hello.modern.pskBinders);
      var binder := FinishedHash(Kdf13(env, core), c.binderKey, messageHash + env.truncate(hello));
      (c.(hello := Binders.WithBinders(hello, [binder])), Add(env, core, ServerHelloMsg(hrr)))
  }

  /** The checks of processHelloRetryRequest, the cookie and the new key share. */
  function RetryAllowed(env: Env, c: Client, hrr: SH.Hello, secret: bytes): Result<Client> {
    if (hrr.modern.selectedGroup == 0 && hrr.modern.cookie == []) || hrr.modern.serverShare.group != 0 then Err(Illegal)
    else
      var c1 := if hrr.modern.cookie == [] then c else c.(hello := c.hello.(modern := c.hello.modern.(cookie := hrr.modern.cookie)));
      RetryKey(env, c1, hrr, secret)
  }

  /** processHelloRetryRequest up to the second ClientHello. */
  function ClientRetry(env: Env, c: Client, core: Core, hrr: SH.Hello, secret: bytes, age: u32): Result<(Client, Core)> {
    var messageHash := MessageHash(Kdf13(env, core), core.transcript);
    var c2 :- RetryAllowed(env, c, hrr, secret);
    var (c3, core3) := RetryPsk(env, c2, Add(env, core.(transcript := messageHash), ServerHelloMsg(hrr)), hrr, messageHash, age);
    Ok((c3, Add(env, core3, ClientHelloMsg(c3.hello))))
  }

  /** processServerHello: whether the PSK is used. */
  function ProcessServerHello(c: Client, core: Core, sh: SH.Hello): Result<bool> {
    var x := sh.modern;
    if sh.random == HELLO_RETRY_RANDOM || x.cookie != [] || x.selectedGroup != 0 then Err(Illegal)
    else if x.serverShare.group == 0 || x.serverShare.group != c.key.group then Err(Illegal)
    else if !x.selectedIdentityPresent then Ok(false)
    else if x.selectedIdentity >= |c.hello.modern.pskIdentities| then Err(Illegal)
    else if |c.hello.modern.pskIdentities| != 1 || c.session.None? then Err(Refused)
    else if c.session.value.suite.hash != core.suite.hash then Err(Illegal)
    else Ok(true)
  }

  /** establishHandshakeKeys of the client. */
  function EstablishHandshakeKeys(env: Env, c: Client, core: Core, share: KeyShare): Result<Core> {
    match env.curves.agree(c.key.group, c.key.secret, share.data)
    case None => Err(Illegal)
    case Some(shared) =>
      var k := Kdf13(env, core);
      var early := if core.usingPsk then c.early else Extract(k, None, []);
      var handshakeSecret := Extract(k, Some(shared), DeriveSecret(k, early, Derived, []));
      Ok(core.(secrets := core.secrets.(
          outgoing := DeriveSecret(k, handshakeSecret, ClientHandshakeTraffic, core.transcript),
          incoming := DeriveSecret(k, handshakeSecret, ServerHandshakeTraffic, core.transcript),
          master := Extract(k, None, DeriveSecret(k, handshakeSecret, Derived, [])))))
  }

  /** From the ServerHello to the handshake keys. */
  function OnServerHello(env: Env, c: Client, core: Core, sh: SH.Hello): Result<Core> {
    var core1 := Add(env, core, ServerHelloMsg(sh));
    var usingPsk :- ProcessServerHello(c, core1, sh);
    EstablishHandshakeKeys(env, c, core1.(usingPsk := usingPsk), sh.modern.serverShare)
  }

  /** checkALPN. */
  predicate AlpnOk(clientProtocols: seq<bytes>, protocol: bytes) {
    protocol == [] || protocol in clientProtocols
  }

  /** readServerParameters. */
  function ReadServerParameters(env: Env, core: Core, hello: CH.Hello, m: Message): Result<Core> {
    if !m.EncryptedExtensions? then Err(Unexpected)
    else if !AlpnOk(hello.common.alpnProtocols, m.alpn) then Err(Illegal)
    else Ok(Add(env, core, m))
  }

  /** The content a CertificateVerify signs. */
  function Signed(env: Env, byServer: bool, core: Core): bytes {
    env.signedMessage(byServer, Kdf13(env, core).sum(core.transcript))
  }

  /** Reading a certificate and the signature that goes with it. */
  function ReadCertificate(env: Env, conf: ClientConf, core: Core, certificate: Message, verify: Message): Result<Core> {
    if !certificate.Certificate? then Err(Unexpected)
    else if certificate.chain == [] then Err(Illegal)
    else if !conf.accepts(certificate.chain) then Err(Refused)
    else if !verify.CertificateVerify? then Err(Unexpected)
    else
      var core1 := Add(env, core, certificate);
      if !env.signatures.verify(certificate.chain, Signed(env, true, core1), verify.signature) then Err(BadSignature)
      else Ok(Add(env, core1, verify))
  }

  /** readServerCertificate: the new state, whether a certificate was requested, and the messages left. */
  function ReadServerCertificate(env: Env, conf: ClientConf, core: Core, flight: seq<Message>): Result<(Core, bool, seq<Message>)> {
    if core.usingPsk then Ok((core, false, flight))
    else if |flight| >= 3 && flight[0].CertificateRequest? then
      var core1 :- ReadCertificate(env, conf, Add(env, core, flight[0]), flight[1], flight[2]);
      Ok((core1, true, flight[3..]))
    else if |flight| < 2 then Err(Unexpected)
    else
      var core1 :- ReadCertificate(env, conf, core, flight[0], flight[1]);
      Ok((core1, false, flight[2..]))
  }

  /** readServerFinished. */
  function ReadServerFinished(env: Env, core: Core, m: Message): Result<Core> {
    var k := Kdf13(env, core);
    if !m.Finished? then Err(Unexpected)
    else if m.verifyData != FinishedHash(k, core.secrets.incoming, core.transcript) then Err(BadFinished)
    else
      var core1 := Add(env, core, m);
      Ok(core1.(secrets := core1.secrets.(
          clientApplication := DeriveSecret(k, core1.secrets.master, ClientApplicationTraffic, core1.transcript),
          incoming := DeriveSecret(k, core1.secrets.master, ServerApplicationTraffic, core1.transcript),
          exporter := DeriveSecret(k, core1.secrets.master, ExporterMaster, core1.transcript))))
  }

  /** sendClientCertificate. */
  function SendClientCertificate(env: Env, conf: ClientConf, core: Core, requested: bool): (Core, seq<Message>) {
    if !requested then (core, [])
    else
      var certificate := Certificate(conf.certificate.chain);
      var core1 := Add(env, core, certificate);
      if conf.certificate.chain == [] then (core1, [certificate])
      else
        var verify := CertificateVerify(env.signatures.sign(conf.certificate.key, Signed(env, false, core1)));
        (Add(env, core1, verify), [certificate, verify])
  }

  /** sendClientFinished. */
  function SendClientFinished(env: Env, conf: ClientConf, core: Core): (Core, Message) {
    var k := Kdf13(env, core);
    var finished := Finished(FinishedHash(k, core.secrets.outgoing, core.transcript));
    var core1 := Add(env, core, finished);
    (core1.(secrets := core1.secrets.(
       outgoing := core1.secrets.clientApplication,
       resumption := if conf.keepsSessions then Some(DeriveSecret(k, core1.secrets.master, ResumptionMaster, core1.transcript)) else None)),
     finished)
  }

  /** handleNewSessionTicket: the session to cache, if any. */
  function HandleTicket(conf: ClientConf, core: Core, m: Message): Result<Option<Session>> {
    if !m.NewSessionTicket? then Err(Unexpected)
    else if !conf.keepsSessions || m.lifetime == 0 then Ok(None)
    else if m.lifetime > TICKET_LIFETIME then Err(Illegal)
    else if core.secrets.resumption.None? then Err(Refused)
    else Ok(Some(Session(m.ticket, core.suite, core.secrets.resumption.value, m.nonce)))
  }

  // The server.

  datatype ClientAuth = NoClientCert | RequestClientCert | RequireAnyClientCert | VerifyClientCertIfGiven | RequireAndVerifyClientCert

  predicate RequiresClientCert(a: ClientAuth) {
    a.RequireAnyClientCert? || a.RequireAndVerifyClientCert?
  }

  /** What a ticket holds. */
  datatype SessionState = SessionState(suite: u16, secret: bytes, chain: seq<bytes>)

  /** `open` is decryptTicket with the parsing and the age check; `seal` is encryptTicket. */
  datatype ServerConf = ServerConf(
    suitePreference: seq<u16>,
    curvePreference: seq<u16>,
    protocols: seq<bytes>,
    clientAuth: ClientAuth,
    acceptsClient: seq<bytes> -> bool,
    pick: CH.Hello -> Option<Credential>,
    ticketsDisabled: bool,
    open: bytes -> Option<SessionState>,
    seal: SessionState -> bytes)

  datatype Server = Server(
    conf: ServerConf,
    clientHello: CH.Hello,
    hello: SH.Hello,
    early: Option<bytes>,
    shared: bytes,
    peerChain: seq<bytes>,
    handshakeSecret: bytes,
    clientFinished: bytes,
    core: Core)

  /** The suite part of processClientHello: the first preferred suite the client offers. */
  function SelectSuite(preference: seq<u16>, offered: seq<u16>): Option<Suite> {
    if preference == [] then None
    else if MutualSuite(offered, preference[0]).Some? then MutualSuite(offered, preference[0])
    else SelectSuite(preference[1..], offered)
  }

  function FirstShare(shares: seq<KeyShare>, group: u16): Option<KeyShare> {
    if shares == [] then None else if shares[0].group == group then Some(shares[0]) else FirstShare(shares[1..], group)
  }

  /** The group part of processClientHello, with the group selected so far. */
  function SelectGroup(preference: seq<u16>, shares: seq<KeyShare>, curves: seq<u16>, selected: u16): (u16, Option<KeyShare>) {
    if preference == [] then (selected, None)
    else
      var share := FirstShare(shares, preference[0]);
      if share.Some? then (share.value.group, share)
      else SelectGroup(preference[1..], shares, curves, if selected == 0 && preference[0] in curves then preference[0] else selected)
  }

  datatype Offer = Offer(suite: Suite, group: u16, share: Option<KeyShare>)

  /** processClientHello up to the choice of suite and group. */
  function AcceptHello(conf: ServerConf, ch: CH.Hello): Result<Offer> {
    if ch.modern.supportedVersions == [] || ch.compressionMethods != [0] then Err(Illegal)
    else if ch.common.secureRenegotiation != [] || ch.modern.earlyData then Err(Illegal)
    else
      match SelectSuite(conf.suitePreference, ch.cipherSuites)
      case None => Err(Refused)
      case Some(suite) =>
        var (group, share) := SelectGroup(conf.curvePreference, ch.modern.keyShares, ch.common.supportedCurves, 0);
        if group == 0 then Err(Refused) else Ok(Offer(suite, group, share))
  }

  /** The parts of the ServerHello that a HelloRetryRequest has too. */
  function HelloFor(ch: CH.Hello, suite: Suite, random: bytes, modern: SH.Modern): SH.Hello {
    SH.Hello.Hello(VERSION_TLS12, random, ch.sessionId, suite.id, 0, SH.NO_COMMON, modern.(supportedVersion := VERSION_TLS13))
  }

  /** doHelloRetryRequest: the request and the transcript after it. */
  function RetryRequest(env: Env, ch: CH.Hello, suite: Suite, group: u16): (SH.Hello, bytes) {
    var hrr := HelloFor(ch, suite, HELLO_RETRY_RANDOM, SH.NO_MODERN.(selectedGroup := group));
    (hrr, MessageHash(env.kdf(suite.hash), env.encode(ClientHelloMsg(ch))) + env.encode(ServerHelloMsg(hrr)))
  }

  /** illegalClientHelloChange. */
  predicate IllegalChange(ch: CH.Hello, ch1: CH.Hello) {
    || ch.modern.supportedVersions != ch1.modern.supportedVersions || ch.cipherSuites != ch1.cipherSuites
    || ch.common != ch1.common || ch.vers != ch1.vers || ch.random != ch1.random || ch.sessionId != ch1.sessionId
    || ch.compressionMethods != ch1.compressionMethods || ch.modern.cookie != ch1.modern.cookie
    || ch.modern.pskModes != ch1.modern.pskModes
  }

  /** doHelloRetryRequest: the checks on the second ClientHello. */
  function AcceptSecondHello(ch1: CH.Hello, ch2: CH.Hello, group: u16): Result<KeyShare> {
    if |ch2.modern.keyShares| != 1 || ch2.modern.keyShares[0].group != group then Err(Illegal)
    else if ch2.modern.earlyData || IllegalChange(ch2, ch1) then Err(Illegal)
    else Ok(ch2.modern.keyShares[0])
  }

  /** A ticket the server could resume under this suite. */
  function UsableTicket(conf: ServerConf, suite: Suite, ticket: bytes): Option<SessionState> {
    match conf.open(ticket)
    case None => None
    case Some(state) =>
      if SuiteById(state.suite).None? || SuiteById(state.suite).value.hash != suite.hash then None
      else if RequiresClientCert(conf.clientAuth) && state.chain == [] then None
      else if state.chain != [] && conf.clientAuth.NoClientCert? then None
      else Some(state)
  }

  /** The identity a server resumes, its early secret, and the client certificates its ticket carries over. */
  datatype Psk = Psk(index: nat, early: bytes, chain: seq<bytes>)

  /** The loop of checkForResumption from identity i on. */
  function FindPsk(env: Env, conf: ServerConf, ch: CH.Hello, suite: Suite, transcript: bytes, i: nat): Result<Option<Psk>>
    requires |ch.modern.pskIdentities| == |ch.modern.pskBinders|
    decreases |ch.modern.pskIdentities| - i
  {
    if i >= |ch.modern.pskIdentities| || i >= MAX_CLIENT_PSK_IDENTITIES then Ok(None)
    else
      match UsableTicket(conf, suite, ch.modern.pskIdentities[i].identity)
      case None => FindPsk(env, conf, ch, suite, transcript, i + 1)
      case Some(state) =>
        var k := env.kdf(suite.hash);
        var early := Extract(k, Some(k.expandLabel(state.secret, Resumption, [])), []);
        var binderKey := DeriveSecret(k, early, ResumptionBinder, []);
        if ch.modern.pskBinders[i] != FinishedHash(k, binderKey, transcript + env.truncate(ch)) then Err(BadBinder)
        else if !conf.acceptsClient(state.chain) then Err(Refused)
        else Ok(Some(Psk(i, early, state.chain)))
  }

  function CheckForResumption(env: Env, conf: ServerConf, ch: CH.Hello, suite: Suite, transcript: bytes): Result<Option<Psk>> {
    if conf.ticketsDisabled || PSK_MODE_DHE !in ch.modern.pskModes then Ok(None)
    else if |ch.modern.pskIdentities| != |ch.modern.pskBinders| then Err(Illegal)
    else FindPsk(env, conf, ch, suite, transcript, 0)
  }

  /** From the chosen share to a server ready to answer: ECDHE, resumption, certificate. */
  function PrepareServer(env: Env, conf: ServerConf, ch: CH.Hello, suite: Suite, group: u16, share: KeyShare, transcript: bytes,
                         random: bytes, secret: bytes): Result<Server>
  {
    if !env.curves.supported(group) then Err(Refused)
    else
      match env.curves.agree(group, secret, share.data)
      case None => Err(Illegal)
      case Some(shared) =>
        var psk :- CheckForResumption(env, conf, ch, suite, transcript);
        if psk.None? && ch.common.signatureAlgorithms == [] then Err(Illegal)
        else if psk.None? && conf.pick(ch).None? then Err(Refused)
        else
          var own := KeyShare(group, env.curves.public(group, secret));
          var modern := SH.NO_MODERN.(serverShare := own, selectedIdentityPresent := psk.Some?,
                                      selectedIdentity := if psk.Some? && psk.value.index < 0x1_0000 then psk.value.index else 0);
          Ok(Server(conf, ch, HelloFor(ch, suite, random, modern), if psk.Some? then Some(psk.value.early) else None,
                    shared, if psk.Some? then psk.value.chain else [], [], [], Core(suite, transcript, psk.Some?, NO_SECRETS)))
  }

  const H2: bytes := [0x68, 0x32]
  const HTTP11: bytes := [0x68, 0x74, 0x74, 0x70, 0x2f, 0x31, 0x2e, 0x31]

  function FirstCommon(serverProtocols: seq<bytes>, clientProtocols: seq<bytes>): (r: Option<bytes>)
    ensures r.Some? <==> exists p :: p in serverProtocols && p in clientProtocols
    ensures r.Some? ==> r.value in serverProtocols && r.value in clientProtocols
  {
    if serverProtocols == [] then None
    else if serverProtocols[0] in clientProtocols then Some(serverProtocols[0])
    else
      assert forall p :: p in serverProtocols ==> p == serverProtocols[0] || p in serverProtocols[1..];
      FirstCommon(serverProtocols[1..], clientProtocols)
  }

  /** negotiateALPN. */
  function NegotiateAlpn(serverProtocols: seq<bytes>, clientProtocols: seq<bytes>): Option<bytes> {
    if serverProtocols == [] || clientProtocols == [] then Some([])
    else if FirstCommon(serverProtocols, clientProtocols).Some? then FirstCommon(serverProtocols, clientProtocols)
    else if H2 in serverProtocols && HTTP11 in clientProtocols then Some([])
    else None
  }

  /** sendServerParameters up to the handshake keys. */
  function ServerKeys(env: Env, s: Server): Server {
    var core := Add(env, Add(env, s.core, ClientHelloMsg(s.clientHello)), ServerHelloMsg(s.hello));
    var k := Kdf13(env, core);
    var early := if s.early.None? then Extract(k, None, []) else s.early.value;
    var handshakeSecret := Extract(k, Some(s.shared), DeriveSecret(k, early, Derived, []));
    s.(handshakeSecret := handshakeSecret,
       core := core.(secrets := core.secrets.(
         incoming := DeriveSecret(k, handshakeSecret, ClientHandshakeTraffic, core.transcript),
         outgoing := DeriveSecret(k, handshakeSecret, ServerHandshakeTraffic, core.transcript))))
  }

  /** sendServerParameters: the EncryptedExtensions. */
  function SendParameters(env: Env, s: Server): Result<(Server, Message)> {
    match NegotiateAlpn(s.conf.protocols, s.clientHello.common.alpnProtocols)
    case None => Err(Refused)
    case Some(protocol) =>
      var m := EncryptedExtensions(protocol);
      Ok((s.(core := Add(env, s.core, m)), m))
  }

  predicate RequestsClientCert(s: Server) {
    !s.conf.clientAuth.NoClientCert? && !s.core.usingPsk
  }

  /** sendServerCertificate. */
  function SendServerCertificate(env: Env, s: Server, credential: Credential): (Server, seq<Message>) {
    if s.core.usingPsk then (s, [])
    else
      var requests := if RequestsClientCert(s) then [CertificateRequest] else [];
      var core0 := if RequestsClientCert(s) then Add(env, s.core, CertificateRequest) else s.core;
      var core1 := Add(env, core0, Certificate(credential.chain));
      var verify := CertificateVerify(env.signatures.sign(credential.key, Signed(env, true, core1)));
      (s.(core := Add(env, core1, verify)), requests + [Certificate(credential.chain), verify])
  }

  /** sendServerFinished, without the tickets. */
  function SendServerFinished(env: Env, s: Server): (Server, Message) {
    var k := Kdf13(env, s.core);
    var finished := Finished(FinishedHash(k, s.core.secrets.outgoing, s.core.transcript));
    var core := Add(env, s.core, finished);
    var master := Extract(k, None, DeriveSecret(k, s.handshakeSecret, Derived, []));
    (s.(core := core.(secrets := core.secrets.(
          master := master,
          clientApplication := DeriveSecret(k, master, ClientApplicationTraffic, core.transcript),
          outgoing := DeriveSecret(k, master, ServerApplicationTraffic, core.transcript),
          exporter := DeriveSecret(k, master, ExporterMaster, core.transcript)))),
     finished)
  }

  predicate SendsTickets(s: Server) {
    !s.conf.ticketsDisabled && PSK_MODE_DHE in s.clientHello.modern.pskModes
  }

  /** sendSessionTickets: compute the client's Finished before it arrives, roll the transcript over it, issue a ticket. */
  function SendSessionTickets(env: Env, s: Server): (Server, seq<Message>) {
    var k := Kdf13(env, s.core);
    var expected := FinishedHash(k, s.core.secrets.incoming, s.core.transcript);
    var core := Add(env, s.core, Finished(expected));
    if !SendsTickets(s) then (s.(clientFinished := expected, core := core), [])
    else
      var resumption := DeriveSecret(k, core.secrets.master, ResumptionMaster, core.transcript);
      var ticket := s.conf.seal(SessionState(core.suite.id, resumption, s.peerChain));
      (s.(clientFinished := expected, core := core.(secrets := core.secrets.(resumption := Some(resumption)))),
       [NewSessionTicket(ticket, [], TICKET_LIFETIME)])
  }

  /** processCertsFromClient as far as it can refuse. */
  predicate ClientChainOk(conf: ServerConf, chain: seq<bytes>) {
    (chain == [] ==> !RequiresClientCert(conf.clientAuth)) && conf.acceptsClient(chain)
  }

  /** readClientCertificate, without the tickets: the new state and the messages left. */
  function ReadClientCertificate(env: Env, s: Server, flight: seq<Message>): Result<(Server, seq<Message>)> {
    if flight == [] || !flight[0].Certificate? then Err(Unexpected)
    else
      var (chain, core) := (flight[0].chain, Add(env, s.core, flight[0]));
      if !ClientChainOk(s.conf, chain) then Err(Refused)
      else if chain == [] then Ok((s.(core := core, peerChain := chain), flight[1..]))
      else if |flight| < 2 || !flight[1].CertificateVerify? then Err(Unexpected)
      else if !env.signatures.verify(chain, Signed(env, false, core), flight[1].signature) then Err(BadSignature)
      else Ok((s.(core := Add(env, core, flight[1]), peerChain := chain), flight[2..]))
  }

  /** readClientFinished. */
  function ReadClientFinished(s: Server, m: Message): Result<Server> {
    if !m.Finished? then Err(Unexpected)
    else if m.verifyData != s.clientFinished then Err(BadFinished)
    else Ok(s.(core := s.core.(secrets := s.core.secrets.(incoming := s.core.secrets.clientApplication))))
  }
}
