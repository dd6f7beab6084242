/**
 * handshake_client_tls13.go and handshake_server_tls13.go against any peer: a side goes on exactly if what
 * it was sent proves what sections 4.1 to 4.4 of RFC 8446 demand. Nothing here supposes an honest peer, and
 * every condition is written out over the messages, the configuration and the primitives.
 */
module Authentication13 {
  import opened Bytes
  import opened Wire
  import opened HelloParts
  import opened KeySchedule
  import opened Handshake13
  import opened Agreement13
  import opened Schedule13
  import CH = ClientHello
  import SH = ServerHello

  /** Section 4.4.4: the Finished under a traffic secret, over everything heard so far. */
  function FinishedUnder(k: Kdf, secret: bytes, heard: bytes): Message {
    Finished(k.hmac(k.expandLabel(secret, FinishedKey, []), k.sum(heard)))
  }

  // What proves a server.

  /**
   * The messages that prove a server after a transcript: possibly a request, a chain the client accepts, and
   * a signature under it over the transcript through the Certificate message.
   */
  ghost predicate ProvesServer(env: Env, conf: ClientConf, k: Kdf, heard: bytes, ms: seq<Message>) {
    && (|ms| == 2 || (|ms| == 3 && ms[0].CertificateRequest?))
    && var (certificate, verify) := (ms[|ms| - 2], ms[|ms| - 1]);
    && certificate.Certificate? && certificate.chain != [] && conf.accepts(certificate.chain)
    && verify.CertificateVerify?
    && var requested := if |ms| == 3 then heard + env.encode(CertificateRequest) else heard;
    && env.signatures.verify(certificate.chain, env.signedMessage(true, k.sum(requested + env.encode(certificate))), verify.signature)
  }

  /** How many messages of a flight are about the certificate. */
  function CertificateCount(flight: seq<Message>): nat {
    if flight != [] && flight[0].CertificateRequest? then 3 else 2
  }

  lemma HeardThree(env: Env, t: bytes, a: Message, b: Message, c: Message)
    ensures t + Heard(env, [a, b, c]) == t + env.encode(a) + env.encode(b) + env.encode(c)
  {
    HeardTwo(env, t, a, b);
    HeardOne(env, t + env.encode(a) + env.encode(b), c);
    HeardAppend(env, [a, b], [c]);
    assert [a, b] + [c] == [a, b, c];
  }

  /** Without a PSK the client goes on exactly if the flight starts with a proof, and has then heard that proof. */
  lemma CertificateReadExactly(env: Env, conf: ClientConf, core: Core, flight: seq<Message>)
    requires !core.usingPsk
    ensures var (n, k, r) := (CertificateCount(flight), env.kdf(core.suite.hash), ReadServerCertificate(env, conf, core, flight));
            && (r.Ok? <==> |flight| >= n && ProvesServer(env, conf, k, core.transcript, flight[..n]))
            && (r.Ok? ==> r.value == (core.(transcript := core.transcript + Heard(env, flight[..n])), n == 3, flight[n..]))
  {
    var n := CertificateCount(flight);
    if |flight| >= n {
      var ms := flight[..n];
      if n == 3 {
        HeardThree(env, core.transcript, ms[0], ms[1], ms[2]);
        assert ms == [ms[0], ms[1], ms[2]];
      } else {
        HeardTwo(env, core.transcript, ms[0], ms[1]);
        assert ms == [ms[0], ms[1]];
      }
    }
  }

  /** The ServerHello fits the ClientHello: one key share for the client's key, and at most the session offered. */
  ghost predicate AnswersHello(c: Client, suite: Suite, sh: SH.Hello) {
    && sh.random != HELLO_RETRY_RANDOM && sh.modern.cookie == [] && sh.modern.selectedGroup == 0
    && sh.modern.serverShare.group == c.key.group != 0
    && (sh.modern.selectedIdentityPresent ==>
          && sh.modern.selectedIdentity == 0 && |c.hello.modern.pskIdentities| == 1
          && c.session.Some? && c.session.value.suite.hash == suite.hash)
  }

  lemma ServerHelloReadExactly(c: Client, core: Core, sh: SH.Hello)
    ensures ProcessServerHello(c, core, sh).Ok? <==> AnswersHello(c, core.suite, sh)
    ensures ProcessServerHello(c, core, sh).Ok? ==> ProcessServerHello(c, core, sh).value == sh.modern.selectedIdentityPresent
  {
  }

  /** The server's handshake traffic secret, from the early secret, the ECDHE secret and the hellos. */
  function ServerSecret(k: Kdf, early: bytes, shared: bytes, hellos: bytes): bytes {
    k.expandLabel(k.extract(shared, k.expandLabel(early, Derived, k.sum([]))), ServerHandshakeTraffic, k.sum(hellos))
  }

  /** The early secret of the client: its session's if the server took it, else that of no PSK. */
  function EarlyOf(k: Kdf, c: Client, sh: SH.Hello): bytes {
    if sh.modern.selectedIdentityPresent then c.early else k.extract(Repeat(0, k.size), [])
  }

  /** A flight that proves, to this client, the server it asked for. */
  ghost predicate ProvesFlight(env: Env, c: Client, core: Core, sh: SH.Hello, parameters: Message, flight: seq<Message>) {
    var (k, psk) := (env.kdf(core.suite.hash), sh.modern.selectedIdentityPresent);
    var shared := env.curves.agree(c.key.group, c.key.secret, sh.modern.serverShare.data);
    var hellos := core.transcript + env.encode(ServerHelloMsg(sh));
    var heard := hellos + env.encode(parameters);
    var n := if psk then 0 else CertificateCount(flight);
    && AnswersHello(c, core.suite, sh) && shared.Some?
    && parameters.EncryptedExtensions? && (parameters.alpn == [] || parameters.alpn in c.hello.common.alpnProtocols)
    && n < |flight| && (psk || ProvesServer(env, c.conf, k, heard, flight[..n]))
    && flight[n] == FinishedUnder(k, ServerSecret(k, EarlyOf(k, c, sh), shared.value, hellos), heard + Heard(env, flight[..n]))
  }

  lemma ServerHelloSecret(env: Env, c: Client, core: Core, sh: SH.Hello)
    ensures var (k, r) := (env.kdf(core.suite.hash), OnServerHello(env, c, core, sh));
            var shared := env.curves.agree(c.key.group, c.key.secret, sh.modern.serverShare.data);
            var hellos := core.transcript + env.encode(ServerHelloMsg(sh));
            && (r.Ok? <==> AnswersHello(c, core.suite, sh) && shared.Some?)
            && (r.Ok? ==> && r.value.suite == core.suite && r.value.transcript == hellos
                          && r.value.usingPsk == sh.modern.selectedIdentityPresent
                          && r.value.secrets.incoming == ServerSecret(k, EarlyOf(k, c, sh), shared.value, hellos))
  {
    ServerHelloReadExactly(c, Add(env, core, ServerHelloMsg(sh)), sh);
  }

  lemma ServerFinishedReadExactly(env: Env, core: Core, m: Message)
    ensures var (k, r) := (env.kdf(core.suite.hash), ReadServerFinished(env, core, m));
            && (r.Ok? <==> m == FinishedUnder(k, core.secrets.incoming, core.transcript))
            && (r.Ok? ==> r.value.transcript == core.transcript + env.encode(m))
  {
  }

  /**
   * A client reads a server's flight to the end exactly if the flight proves the server: an accepted chain
   * with a signature over the transcript or the client's own session, and in either case the Finished under
   * the secret of the key exchange. Whatever the peer is, nothing else is accepted and nothing less.
   */
  lemma ServerAuthenticatedExactly(env: Env, c: Client, core: Core, sh: SH.Hello, parameters: Message, flight: seq<Message>)
    ensures var r := ReadFlight(env, c, core, sh, parameters, flight);
            var n := if sh.modern.selectedIdentityPresent then 0 else CertificateCount(flight);
            && (r.Ok? <==> ProvesFlight(env, c, core, sh, parameters, flight))
            && (r.Ok? ==> && r.value.1 == (!sh.modern.selectedIdentityPresent && n == 3)
                          && r.value.0.transcript == core.transcript + env.encode(ServerHelloMsg(sh)) + env.encode(parameters)
                                                     + Heard(env, flight[..n]) + env.encode(flight[n]))
  {
    ServerHelloSecret(env, c, core, sh);
    var r1 := OnServerHello(env, c, core, sh);
    if r1.Ok? {
      var r2 := ReadServerParameters(env, r1.value, c.hello, parameters);
      if r2.Ok? {
        FlightReadExactly(env, c.conf, r2.value, flight);
      }
    }
  }

  /** From the certificate on. */
  function ReadProof(env: Env, conf: ClientConf, core: Core, flight: seq<Message>): Result<(Core, bool)> {
    var (c3, requested, rest) :- ReadServerCertificate(env, conf, core, flight);
    if rest == [] then Err(Unexpected)
    else
      var c4 :- ReadServerFinished(env, c3, rest[0]);
      Ok((c4, requested))
  }

  lemma FlightReadExactly(env: Env, conf: ClientConf, core: Core, flight: seq<Message>)
    ensures var (k, r) := (env.kdf(core.suite.hash), ReadProof(env, conf, core, flight));
            var n := if core.usingPsk then 0 else CertificateCount(flight);
            && (r.Ok? <==> && n < |flight| && (core.usingPsk || ProvesServer(env, conf, k, core.transcript, flight[..n]))
                           && flight[n] == FinishedUnder(k, core.secrets.incoming, core.transcript + Heard(env, flight[..n])))
            && (r.Ok? ==> && r.value.1 == (!core.usingPsk && n == 3)
                          && r.value.0.transcript == core.transcript + Heard(env, flight[..n]) + env.encode(flight[n]))
  {
    if core.usingPsk {
      assert core.transcript + Heard(env, flight[..0]) == core.transcript;
    } else {
      CertificateReadExactly(env, conf, core, flight);
    }
    var r := ReadServerCertificate(env, conf, core, flight);
    if r.Ok? && r.value.2 != [] {
      ServerFinishedReadExactly(env, r.value.0, r.value.2[0]);
    }
  }

  // What proves a client.

  /** The configuration lets a client in with this chain; an empty chain is a client without a certificate. */
  predicate Admits(conf: ServerConf, chain: seq<bytes>) {
    && conf.acceptsClient(chain)
    && (chain == [] ==> !conf.clientAuth.RequireAnyClientCert? && !conf.clientAuth.RequireAndVerifyClientCert?)
  }

  /** The messages that answer a certificate request: a chain let in and, unless it is empty, a signature under it. */
  ghost predicate ProvesClient(env: Env, conf: ServerConf, k: Kdf, heard: bytes, ms: seq<Message>) {
    && ms != [] && ms[0].Certificate? && Admits(conf, ms[0].chain)
    && if ms[0].chain == [] then |ms| == 1
       else && |ms| == 2 && ms[1].CertificateVerify?
            && env.signatures.verify(ms[0].chain, env.signedMessage(false, k.sum(heard + env.encode(ms[0]))), ms[1].signature)
  }

  function AnswerCount(flight: seq<Message>): nat {
    if flight != [] && flight[0].Certificate? && flight[0].chain == [] then 1 else 2
  }

  lemma ClientCertificateReadExactly(env: Env, s: Server, flight: seq<Message>)
    ensures var (n, k, r) := (AnswerCount(flight), env.kdf(s.core.suite.hash), ReadClientCertificate(env, s, flight));
            && (r.Ok? <==> |flight| >= n && ProvesClient(env, s.conf, k, s.core.transcript, flight[..n]))
            && (r.Ok? ==> r.value == (s.(core := s.core.(transcript := s.core.transcript + Heard(env, flight[..n])), peerChain := flight[0].chain),
                                      flight[n..]))
  {
    var n := AnswerCount(flight);
    if |flight| >= n {
      var ms := flight[..n];
      if n == 1 {
        HeardOne(env, s.core.transcript, ms[0]);
        assert ms == [ms[0]];
      } else {
        HeardTwo(env, s.core.transcript, ms[0], ms[1]);
        assert ms == [ms[0], ms[1]];
      }
    }
  }

  /** The server after its own Finished reads the client's flight, the expected Finished computed early or late. */
  function ReadClient(env: Env, s: Server, flight: seq<Message>): Result<(Server, seq<Message>)> {
    ReadClientFlight(env, if RequestsClientCert(s) then s else SendSessionTickets(env, s).0, flight)
  }

  /**
   * A server takes a client's flight exactly if it holds what the configuration asks for: with a request and
   * no PSK, a chain let in and its signature over the transcript; and always the Finished under the client's
   * handshake secret over everything before it.
   */
  lemma ClientAuthenticatedExactly(env: Env, s: Server, flight: seq<Message>)
    ensures var (k, r) := (env.kdf(s.core.suite.hash), ReadClient(env, s, flight));
            var asked := !s.conf.clientAuth.NoClientCert? && !s.core.usingPsk;
            var n := if asked then AnswerCount(flight) else 0;
            && (r.Ok? <==> && n < |flight| && (asked ==> ProvesClient(env, s.conf, k, s.core.transcript, flight[..n]))
                           && flight[n] == FinishedUnder(k, s.core.secrets.incoming, s.core.transcript + Heard(env, flight[..n])))
            && (r.Ok? ==> r.value.0.peerChain == if asked then flight[0].chain else s.peerChain)
  {
    if RequestsClientCert(s) {
      ClientCertificateReadExactly(env, s, flight);
      var r := ReadClientCertificate(env, s, flight);
      if r.Ok? && r.value.1 != [] {
        ExpectedFinished(env, r.value.0, r.value.1[0]);
      }
    } else {
      assert s.core.transcript + Heard(env, flight[..0]) == s.core.transcript;
      if flight != [] {
        ExpectedFinished(env, s, flight[0]);
      }
    }
  }

  lemma ExpectedFinished(env: Env, s: Server, m: Message)
    ensures var r := ReadClientFinished(SendSessionTickets(env, s).0, m);
            && (r.Ok? <==> m == FinishedUnder(env.kdf(s.core.suite.hash), s.core.secrets.incoming, s.core.transcript))
            && (r.Ok? ==> r.value.peerChain == s.peerChain)
  {
  }

  // What proves that a session may be resumed.

  /** A client that resumes offers one identity, the session's ticket, with the binder of its PSK over the truncated hello. */
  lemma SessionOfferedExactly(env: Env, conf: ClientConf, hello: CH.Hello, key: PrivateKey, session: Session, age: u32)
    ensures var (k, c) := (env.kdf(session.suite.hash), StartClient(env, conf, hello, key, Some(session), age));
            var blank := hello.(modern := hello.modern.(pskIdentities := [CH.PskIdentity(session.ticket, age)], pskBinders := [Repeat(0, k.size)]));
            && c.early == k.extract(k.expandLabel(session.secret, Resumption, session.nonce), [])
            && c.binderKey == k.expandLabel(c.early, ResumptionBinder, k.sum([]))
            && c.hello == blank.(modern := blank.modern.(pskBinders := [BinderFor(k, c.early, env.truncate(blank))]))
            && c.key == key && c.session == Some(session)
  {
  }

  /** A ticket's suite has the hash of the selected one, and its client certificates fit what the server asks for. */
  predicate FitsSession(conf: ServerConf, hash: Hash, state: SessionState) {
    && (if hash.Sha256? then state.suite == 0x1301 || state.suite == 0x1303 else state.suite == 0x1302)
    && (state.chain == [] ==> !conf.clientAuth.RequireAnyClientCert? && !conf.clientAuth.RequireAndVerifyClientCert?)
    && (state.chain != [] ==> !conf.clientAuth.NoClientCert?)
  }

  /** Identity i is a ticket of a session that fits. */
  predicate FitsIdentity(conf: ServerConf, hash: Hash, ch: CH.Hello, i: nat)
    requires i < |ch.modern.pskIdentities|
  {
    var found := conf.open(ch.modern.pskIdentities[i].identity);
    found.Some? && FitsSession(conf, hash, found.value)
  }

  lemma UsableExactly(conf: ServerConf, suite: Suite, ch: CH.Hello, i: nat)
    requires i < |ch.modern.pskIdentities|
    ensures var id := ch.modern.pskIdentities[i].identity;
            UsableTicket(conf, suite, id) == if FitsIdentity(conf, suite.hash, ch, i) then conf.open(id) else None
  {
  }

  /** Section 4.2.11.2: the binder of a ticket's PSK over what was heard and the hello without its binders. */
  function BinderFor(k: Kdf, early: bytes, heard: bytes): bytes {
    k.hmac(k.expandLabel(k.expandLabel(early, ResumptionBinder, k.sum([])), FinishedKey, []), k.sum(heard))
  }

  function EarlyFor(k: Kdf, state: SessionState): bytes {
    k.extract(k.expandLabel(state.secret, Resumption, []), [])
  }

  /** Identity i decides: it is among the five looked at and the first, from `start` on, that fits. */
  ghost predicate Decides(conf: ServerConf, hash: Hash, ch: CH.Hello, start: nat, i: nat) {
    && start <= i < |ch.modern.pskIdentities| && i < 5 && FitsIdentity(conf, hash, ch, i)
    && forall j :: start <= j < i ==> !FitsIdentity(conf, hash, ch, j)
  }

  /** What the server makes of the deciding identity. */
  function Decision(env: Env, conf: ServerConf, hash: Hash, ch: CH.Hello, transcript: bytes, i: nat): Result<Option<Psk>>
    requires i < |ch.modern.pskIdentities| == |ch.modern.pskBinders| && FitsIdentity(conf, hash, ch, i)
  {
    var (k, state) := (env.kdf(hash), conf.open(ch.modern.pskIdentities[i].identity).value);
    if ch.modern.pskBinders[i] != BinderFor(k, EarlyFor(k, state), transcript + env.truncate(ch)) then Err(BadBinder)
    else if !conf.acceptsClient(state.chain) then Err(Refused)
    else Ok(Some(Psk(i, EarlyFor(k, state), state.chain)))
  }

  lemma {:induction false} SearchDecides(env: Env, conf: ServerConf, ch: CH.Hello, suite: Suite, transcript: bytes, start: nat)
    requires |ch.modern.pskIdentities| == |ch.modern.pskBinders|
    ensures var r := FindPsk(env, conf, ch, suite, transcript, start);
            && (forall i: nat :: Decides(conf, suite.hash, ch, start, i) ==> r == Decision(env, conf, suite.hash, ch, transcript, i))
            && ((forall i: nat :: !Decides(conf, suite.hash, ch, start, i)) ==> r == Ok(None))
    decreases |ch.modern.pskIdentities| - start
  {
    if start < |ch.modern.pskIdentities| && start < 5 {
      UsableExactly(conf, suite, ch, start);
      if FitsIdentity(conf, suite.hash, ch, start) {
        assert Decides(conf, suite.hash, ch, start, start);
        forall i: nat | Decides(conf, suite.hash, ch, start, i)
          ensures i == start
        {
        }
      } else {
        var next := start + 1;
        SearchDecides(env, conf, ch, suite, transcript, next);
        forall i: nat
          ensures Decides(conf, suite.hash, ch, start, i) <==> Decides(conf, suite.hash, ch, next, i)
        {
        }
      }
    }
  }

  /**
   * A server resumes a session exactly if tickets are on, the client takes PSK with (EC)DHE, and the first
   * of its first five identities that is a fitting ticket comes with the binder of that ticket's PSK over
   * the truncated hello and with certificates that are still let in. A wrong binder ends the handshake.
   */
  lemma ResumesExactly(env: Env, conf: ServerConf, ch: CH.Hello, suite: Suite, transcript: bytes, psk: Psk)
    ensures CheckForResumption(env, conf, ch, suite, transcript) == Ok(Some(psk)) <==>
      && !conf.ticketsDisabled && 1 in ch.modern.pskModes && |ch.modern.pskIdentities| == |ch.modern.pskBinders|
      && Decides(conf, suite.hash, ch, 0, psk.index)
      && var (k, state) := (env.kdf(suite.hash), conf.open(ch.modern.pskIdentities[psk.index].identity).value);
      && ch.modern.pskBinders[psk.index] == BinderFor(k, EarlyFor(k, state), transcript + env.truncate(ch))
      && conf.acceptsClient(state.chain) && psk.chain == state.chain && psk.early == EarlyFor(k, state)
  {
    if |ch.modern.pskIdentities| == |ch.modern.pskBinders| {
      SearchDecides(env, conf, ch, suite, transcript, 0);
    }
  }

  /** A server ready to answer either resumes a session it has proof of, or has a certificate to show. */
  lemma PreparedExactly(env: Env, conf: ServerConf, ch: CH.Hello, suite: Suite, group: u16, share: KeyShare, transcript: bytes,
                        random: bytes, secret: bytes)
    ensures var r := PrepareServer(env, conf, ch, suite, group, share, transcript, random, secret);
            var found := CheckForResumption(env, conf, ch, suite, transcript);
            && (r.Ok? <==> && env.curves.supported(group) && env.curves.agree(group, secret, share.data).Some? && found.Ok?
                           && (found.value.Some? || (ch.common.signatureAlgorithms != [] && conf.pick(ch).Some?)))
            && (r.Ok? ==> && r.value.core.usingPsk == found.value.Some? == r.value.hello.modern.selectedIdentityPresent
                          && env.curves.agree(group, secret, share.data) == Some(r.value.shared)
                          && r.value.hello.modern.serverShare == KeyShare(group, env.curves.public(group, secret))
                          && r.value.peerChain == (if found.value.Some? then found.value.value.chain else []))
  {
  }

  /** A ticket goes out exactly if tickets are on and the client takes PSK with (EC)DHE; it holds what a later run needs. */
  lemma TicketSentExactly(env: Env, s: Server)
    ensures var (s1, tickets) := SendSessionTickets(env, s);
            var k := env.kdf(s.core.suite.hash);
            var resumption := k.expandLabel(s.core.secrets.master, ResumptionMaster, k.sum(s1.core.transcript));
            tickets == if s.conf.ticketsDisabled || 1 !in s.clientHello.modern.pskModes then []
                       else [NewSessionTicket(s.conf.seal(SessionState(s.core.suite.id, resumption, s.peerChain)), [], 7 * 24 * 3600)]
  {
  }

  /** A ticket becomes a session exactly if sessions are kept and its lifetime is not zero and at most seven days. */
  lemma TicketKeptExactly(conf: ClientConf, core: Core, m: Message, session: Session)
    ensures HandleTicket(conf, core, m) == Ok(Some(session)) <==>
      && m.NewSessionTicket? && conf.keepsSessions && 0 < m.lifetime <= 7 * 24 * 3600
      && core.secrets.resumption == Some(session.secret)
      && session.suite == core.suite && session.ticket == m.ticket && session.nonce == m.nonce
    ensures HandleTicket(conf, core, m) == Ok(None) <==> m.NewSessionTicket? && (!conf.keepsSessions || m.lifetime == 0)
  {
  }

  // What a HelloRetryRequest may change.

  /** The retry asks for something: a cookie to echo, or a group the client supports but sent no share for. */
  ghost predicate AsksForChange(env: Env, c: Client, hrr: SH.Hello) {
    && (hrr.modern.selectedGroup != 0 || hrr.modern.cookie != []) && hrr.modern.serverShare.group == 0
    && (hrr.modern.selectedGroup != 0 ==>
          && hrr.modern.selectedGroup in c.hello.common.supportedCurves && hrr.modern.selectedGroup != c.key.group
          && env.curves.supported(hrr.modern.selectedGroup))
  }

  /** Section 4.1.2: the second hello is the first but for the cookie, the key share and the PSK. */
  predicate ChangedOnlyAsAsked(env: Env, hello: CH.Hello, hello2: CH.Hello, hrr: SH.Hello, secret: bytes) {
    var (x, group) := (hello.modern, hrr.modern.selectedGroup);
    hello2 == hello.(modern := x.(
                cookie := if hrr.modern.cookie != [] then hrr.modern.cookie else x.cookie,
                keyShares := if group != 0 then [KeyShare(group, env.curves.public(group, secret))] else x.keyShares,
                pskIdentities := hello2.modern.pskIdentities, pskBinders := hello2.modern.pskBinders))
  }

  /** A PSK kept over a retry: its age is brought up to date, and its binder covers the first hello's hash and the truncated second. */
  predicate RetriedPsk(env: Env, k: Kdf, c: Client, hello2: CH.Hello, first: bytes, age: u32) {
    var (was, x) := (c.hello.modern, hello2.modern);
    && was.pskIdentities != [] && x.pskIdentities == [was.pskIdentities[0].(obfuscatedTicketAge := age)] + was.pskIdentities[1..]
    && var heard := first + env.truncate(hello2.(modern := x.(pskBinders := was.pskBinders)));
    && x.pskBinders == [k.hmac(k.expandLabel(c.binderKey, FinishedKey, []), k.sum(heard))]
  }

  /**
   * A client answers a retry exactly if it asks for a change; its second hello changes only what was asked
   * for, and its transcript is the hash of the first hello as a message of its own, the request (a second
   * time if the PSK is kept) and the second hello.
   */
  lemma RetryAnsweredExactly(env: Env, c: Client, core: Core, hrr: SH.Hello, secret: bytes, age: u32)
    ensures var (k, r) := (env.kdf(core.suite.hash), ClientRetry(env, c, core, hrr, secret, age));
            && (r.Ok? <==> AsksForChange(env, c, hrr))
            && (r.Ok? ==>
                  var (c2, core2) := r.value;
                  var (digest, request) := (k.sum(core.transcript), env.encode(ServerHelloMsg(hrr)));
                  var kept := c.hello.modern.pskIdentities != [] && c.session.Some? && c.session.value.suite.hash == core.suite.hash;
                  && ChangedOnlyAsAsked(env, c.hello, c2.hello, hrr, secret)
                  && (if kept then RetriedPsk(env, k, c, c2.hello, [254, 0, 0, Low(|digest|)] + digest, age) else c2.hello.modern.pskIdentities == [])
                  && core2.transcript == [254, 0, 0, Low(|digest|)] + digest + request + (if kept then request else [])
                                         + env.encode(ClientHelloMsg(c2.hello)))
  {
    var r := RetryAllowed(env, c, hrr, secret);
    RetryAllowedExactly(env, c, hrr, secret);
    if r.Ok? {
      var (k, digest) := (env.kdf(core.suite.hash), MessageHash(env.kdf(core.suite.hash), core.transcript));
      PskOverRetry(env, k, c, r.value, Add(env, core.(transcript := digest), ServerHelloMsg(hrr)), hrr, digest, age);
    }
  }

  lemma RetryAllowedExactly(env: Env, c: Client, hrr: SH.Hello, secret: bytes)
    ensures var r := RetryAllowed(env, c, hrr, secret);
            && (r.Ok? <==> AsksForChange(env, c, hrr))
            && (r.Ok? ==> && ChangedOnlyAsAsked(env, c.hello, r.value.hello, hrr, secret)
                          && r.value == c.(key := r.value.key, hello := r.value.hello)
                          && r.value.hello.modern.pskIdentities == c.hello.modern.pskIdentities
                          && r.value.hello.modern.pskBinders == c.hello.modern.pskBinders)
  {
  }

  lemma PskOverRetry(env: Env, k: Kdf, c: Client, c1: Client, core: Core, hrr: SH.Hello, first: bytes, age: u32)
    requires c1 == c.(key := c1.key, hello := c1.hello) && k == env.kdf(core.suite.hash)
    requires c1.hello.modern.pskIdentities == c.hello.modern.pskIdentities && c1.hello.modern.pskBinders == c.hello.modern.pskBinders
    ensures var (c2, core2) := RetryPsk(env, c1, core, hrr, first, age);
            var kept := c.hello.modern.pskIdentities != [] && c.session.Some? && c.session.value.suite.hash == core.suite.hash;
            && c2.hello == c1.hello.(modern := c1.hello.modern.(pskIdentities := c2.hello.modern.pskIdentities, pskBinders := c2.hello.modern.pskBinders))
            && (if kept then RetriedPsk(env, k, c, c2.hello, first, age) else c2.hello.modern.pskIdentities == [])
            && core2.transcript == core.transcript + (if kept then env.encode(ServerHelloMsg(hrr)) else [])
  {
    assert core.transcript + [] == core.transcript;
  }

  /**
   * The server's request: a ServerHello for TLS 1.3 with the random of section 4.1.3, the client's session id,
   * the suite and the group alone; and the transcript it goes on from, the hash of the first hello standing for it.
   */
  lemma RetryRequestedExactly(env: Env, ch: CH.Hello, suite: Suite, group: u16)
    ensures var ((hrr, transcript), digest) := (RetryRequest(env, ch, suite, group), env.kdf(suite.hash).sum(env.encode(ClientHelloMsg(ch))));
            && hrr == SH.Hello.Hello(0x0303, RETRY_RANDOM, ch.sessionId, suite.id, 0, SH.NO_COMMON,
                                     SH.NO_MODERN.(supportedVersion := 0x0304, selectedGroup := group))
            && transcript == [254, 0, 0, Low(|digest|)] + digest + env.encode(ServerHelloMsg(hrr))
  {
  }

  /** SHA-256 of "HelloRetryRequest". */
  const RETRY_RANDOM: bytes := [
    0xCF, 0x21, 0xAD, 0x74, 0xE5, 0x9A, 0x61, 0x11, 0xBE, 0x1D, 0x8C, 0x02, 0x1E, 0x65, 0xB8, 0x91,
    0xC2, 0xA2, 0x11, 0x16, 0x7A, 0xBB, 0x8C, 0x5E, 0x07, 0x9E, 0x09, 0xE2, 0xC8, 0xA8, 0x33, 0x9C]

  /** The server takes a second hello exactly if only the key share, the early data flag and the PSK have changed. */
  lemma SecondHelloTakenExactly(ch1: CH.Hello, ch2: CH.Hello, group: u16, share: KeyShare)
    ensures AcceptSecondHello(ch1, ch2, group) == Ok(share) <==>
      && share.group == group
      && ch2 == ch1.(modern := ch1.modern.(keyShares := [share], earlyData := false,
                                           pskIdentities := ch2.modern.pskIdentities, pskBinders := ch2.modern.pskBinders))
  {
  }

  /** Nothing but TLS 1.3, the legacy fields of section 4.1.3, and a suite the client offered and both sides know. */
  lemma ServerHelloCheckedExactly(hello: CH.Hello, earlier: Option<Suite>, sh: SH.Hello, suite: Suite)
    ensures CheckServerHello(hello, earlier, sh) == Ok(suite) <==>
      && sh.modern.supportedVersion == 0x0304 && sh.vers == 0x0303 && sh.sessionId == hello.sessionId && sh.compressionMethod == 0
      && sh.common == SH.NO_COMMON.(supportedPoints := sh.common.supportedPoints)
      && suite.id == sh.cipherSuite && suite.id in hello.cipherSuites
      && (if suite.hash.Sha256? then suite.id == 0x1301 || suite.id == 0x1303 else suite.id == 0x1302)
      && (earlier.Some? ==> earlier.value == suite)
  {
  }
}
