/**
 * handshake_client_tls13.go and handshake_server_tls13.go: the two handshake objects, which update their
 * transcript and secrets step by step, and the selection loops of the server.
 */
module HandshakeObjects {
  import opened Bytes
  import opened Wire
  import opened HelloParts
  import opened KeySchedule
  import opened Handshake13
  import CH = ClientHello
  import SH = ServerHello
  import Binders

  /** clientHandshakeStateTLS13. */
  class ClientHandshake {
    const env: Env
    const conf: ClientConf
    var hello: CH.Hello
    var key: PrivateKey
    const session: Option<Session>
    const early: bytes
    const binderKey: bytes
    var certificateRequested: bool
    var suite: Suite
    var transcript: bytes
    var usingPsk: bool
    var secrets: Secrets

    ghost function State(): Client
      reads this
    {
      Client(conf, hello, key, session, early, binderKey)
    }

    ghost function HandshakeCore(): Core
      reads this
    {
      Core(suite, transcript, usingPsk, secrets)
    }

    /** handshake: the first flight has been sent, and a suite selected. */
    constructor (env: Env, c: Client, suite: Suite)
      ensures this.env == env && State() == c && certificateRequested == false
      ensures HandshakeCore() == Core(suite, env.encode(ClientHelloMsg(c.hello)), false, NO_SECRETS)
    {
      this.env, conf, hello, key, session, early, binderKey := env, c.conf, c.hello, c.key, c.session, c.early, c.binderKey;
      this.suite, transcript, usingPsk, secrets := suite, env.encode(ClientHelloMsg(c.hello)), false, NO_SECRETS;
      certificateRequested := false;
    }

    /** The checks of processHelloRetryRequest, the cookie and the new key share. */
    method AllowRetry(hrr: SH.Hello, secret: bytes) returns (err: Option<Failure>)
      modifies this`key, this`hello
      ensures match RetryAllowed(env, old(State()), hrr, secret)
              case Err(failure) => err == Some(failure)
              case Ok(c) => err == None && State() == c
    {
      var group := hrr.modern.selectedGroup;
      if group == 0 && hrr.modern.cookie == [] {
        return Some(Illegal);
      }
      if hrr.modern.cookie != [] {
        hello := hello.(modern := hello.modern.(cookie := hrr.modern.cookie));
      }
      if hrr.modern.serverShare.group != 0 {
        return Some(Illegal);
      }
      if group != 0 {
        if group !in hello.common.supportedCurves || group == key.group {
          return Some(Illegal);
        }
        if !env.curves.supported(group) {
          return Some(Refused);
        }
        key := PrivateKey(group, secret);
        hello := WithShare(hello, KeyShare(group, env.curves.public(group, secret)));
      }
      return None;
    }

    /** processHelloRetryRequest up to sending the second ClientHello. */
    method ProcessHelloRetryRequest(hrr: SH.Hello, secret: bytes, age: u32) returns (err: Option<Failure>)
      modifies this`key, this`hello, this`transcript
      ensures match ClientRetry(env, old(State()), old(HandshakeCore()), hrr, secret, age)
              case Err(failure) => err == Some(failure)
              case Ok((c, core)) => err == None && State() == c && HandshakeCore() == core
    {
      var messageHash := MessageHash(env.kdf(suite.hash), transcript);
      transcript := messageHash;
      transcript := transcript + env.encode(ServerHelloMsg(hrr));
      err := AllowRetry(hrr, secret);
      if err.Some? {
        return;
      }
      UpdatePsk(hrr, messageHash, age);
      transcript := transcript + env.encode(ClientHelloMsg(hello));
    }

    /** The PSK part: note which transcript the request is added to. */
    method UpdatePsk(hrr: SH.Hello, messageHash: bytes, age: u32)
      modifies this`hello, this`transcript
      ensures (State(), HandshakeCore()) == RetryPsk(env, old(State()), old(HandshakeCore()), hrr, messageHash, age)
    {
      if hello.modern.pskIdentities != [] && session.Some? && session.value.suite.hash == suite.hash {
        var first := hello.modern.pskIdentities[0].(obfuscatedTicketAge := age);
        hello := WithPsk(hello, [first] + hello.modern.pskIdentities[1..], hello.modern.pskBinders);
        var local := messageHash;
        transcript := transcript + env.encode(ServerHelloMsg(hrr));
        local := local + env.truncate(hello);
        hello := Binders.WithBinders(hello, [FinishedHash(env.kdf(suite.hash), binderKey, local)]);
      } else {
        hello := WithPsk(hello, [], []);
      }
    }

    /** The ServerHello: processServerHello and establishHandshakeKeys. */
    method EstablishKeys(sh: SH.Hello) returns (err: Option<Failure>)
      modifies this`transcript, this`usingPsk, this`secrets
      ensures State() == old(State())
      ensures match OnServerHello(env, old(State()), old(HandshakeCore()), sh)
              case Err(failure) => err == Some(failure)
              case Ok(core) => err == None && HandshakeCore() == core
    {
      transcript := transcript + env.encode(ServerHelloMsg(sh));
      var accepted := ProcessServerHello(Client(conf, hello, key, session, early, binderKey), Core(suite, transcript, usingPsk, secrets), sh);
      if accepted.Err? {
        return Some(accepted.failure);
      }
      usingPsk := accepted.value;
      var shared := env.curves.agree(key.group, key.secret, sh.modern.serverShare.data);
      if shared.None? {
        return Some(Illegal);
      }
      var k := env.kdf(suite.hash);
      var earlySecret := early;
      if !usingPsk {
        earlySecret := Extract(k, None, []);
      }
      var handshakeSecret := Extract(k, Some(shared.value), DeriveSecret(k, earlySecret, Derived, []));
      secrets := secrets.(outgoing := DeriveSecret(k, handshakeSecret, ClientHandshakeTraffic, transcript));
      secrets := secrets.(incoming := DeriveSecret(k, handshakeSecret, ServerHandshakeTraffic, transcript));
      secrets := secrets.(master := Extract(k, None, DeriveSecret(k, handshakeSecret, Derived, [])));
      return None;
    }

    /** readServerParameters. */
    method ReadParameters(m: Message) returns (err: Option<Failure>)
      modifies this`transcript
      ensures match ReadServerParameters(env, old(HandshakeCore()), hello, m)
              case Err(failure) => err == Some(failure)
              case Ok(core) => err == None && HandshakeCore() == core
    {
      if !m.EncryptedExtensions? {
        return Some(Unexpected);
      }
      transcript := transcript + env.encode(m);
      var known := CheckProtocol(hello.common.alpnProtocols, m.alpn);
      return if known then None else Some(Illegal);
    }

    /** readServerCertificate: a request may come first. */
    method ReadCertificates(flight: seq<Message>) returns (r: Result<seq<Message>>)
      modifies this`transcript, this`certificateRequested
      ensures match ReadServerCertificate(env, conf, old(HandshakeCore()), flight)
              case Err(failure) => r == Err(failure)
              case Ok((core, requested, rest)) =>
                HandshakeCore() == core && r == Ok(rest) && certificateRequested == (requested || old(certificateRequested))
    {
      if usingPsk {
        return Ok(flight);
      }
      var rest := flight;
      if |flight| >= 3 && flight[0].CertificateRequest? {
        certificateRequested := true;
        transcript := transcript + env.encode(flight[0]);
        rest := flight[1..];
      }
      if |rest| < 2 {
        return Err(Unexpected);
      }
      var (certificate, verify) := (rest[0], rest[1]);
      if !certificate.Certificate? {
        return Err(Unexpected);
      }
      transcript := transcript + env.encode(certificate);
      if certificate.chain == [] {
        return Err(Illegal);
      }
      if !conf.accepts(certificate.chain) {
        return Err(Refused);
      }
      if !verify.CertificateVerify? {
        return Err(Unexpected);
      }
      var signed := env.signedMessage(true, env.kdf(suite.hash).sum(transcript));
      if !env.signatures.verify(certificate.chain, signed, verify.signature) {
        return Err(BadSignature);
      }
      transcript := transcript + env.encode(verify);
      return Ok(rest[2..]);
    }

    method ReadFinished(m: Message) returns (err: Option<Failure>)
      modifies this`transcript, this`secrets
      ensures match ReadServerFinished(env, old(HandshakeCore()), m)
              case Err(failure) => err == Some(failure) && HandshakeCore() == old(HandshakeCore())
              case Ok(core) => err == None && HandshakeCore() == core
    {
      if !m.Finished? {
        return Some(Unexpected);
      }
      var k := env.kdf(suite.hash);
      if m.verifyData != FinishedHash(k, secrets.incoming, transcript) {
        return Some(BadFinished);
      }
      transcript := transcript + env.encode(m);
      secrets := secrets.(clientApplication := DeriveSecret(k, secrets.master, ClientApplicationTraffic, transcript));
      secrets := secrets.(incoming := DeriveSecret(k, secrets.master, ServerApplicationTraffic, transcript));
      secrets := secrets.(exporter := DeriveSecret(k, secrets.master, ExporterMaster, transcript));
      return None;
    }

    method SendCertificate() returns (messages: seq<Message>)
      modifies this`transcript
      ensures (HandshakeCore(), messages) == SendClientCertificate(env, conf, old(HandshakeCore()), certificateRequested)
    {
      if !certificateRequested {
        return [];
      }
      var certificate := Certificate(conf.certificate.chain);
      transcript := transcript + env.encode(certificate);
      if conf.certificate.chain == [] {
        return [certificate];
      }
      var signed := env.signedMessage(false, env.kdf(suite.hash).sum(transcript));
      var verify := CertificateVerify(env.signatures.sign(conf.certificate.key, signed));
      transcript := transcript + env.encode(verify);
      return [certificate, verify];
    }

    method SendFinished() returns (m: Message)
      modifies this`transcript, this`secrets
      ensures (HandshakeCore(), m) == SendClientFinished(env, conf, old(HandshakeCore()))
    {
      var k := env.kdf(suite.hash);
      m := Finished(FinishedHash(k, secrets.outgoing, transcript));
      transcript := transcript + env.encode(m);
      secrets := secrets.(outgoing := secrets.clientApplication, resumption := None);
      if conf.keepsSessions {
        secrets := secrets.(resumption := Some(DeriveSecret(k, secrets.master, ResumptionMaster, transcript)));
      }
    }
  }

  /** serverHandshakeStateTLS13. */
  class ServerHandshake {
    const env: Env
    const conf: ServerConf
    const clientHello: CH.Hello
    const hello: SH.Hello
    const early: Option<bytes>
    const shared: bytes
    const suite: Suite
    const usingPsk: bool
    var peerChain: seq<bytes>
    var handshakeSecret: bytes
    var clientFinished: bytes
    var transcript: bytes
    var secrets: Secrets

    ghost function State(): Server
      reads this
    {
      Server(conf, clientHello, hello, early, shared, peerChain, handshakeSecret, clientFinished, Core(suite, transcript, usingPsk, secrets))
    }

    constructor (env: Env, s: Server)
      ensures this.env == env && State() == s
    {
      this.env, conf, clientHello, hello, early, shared := env, s.conf, s.clientHello, s.hello, s.early, s.shared;
      suite, usingPsk, transcript, secrets := s.core.suite, s.core.usingPsk, s.core.transcript, s.core.secrets;
      handshakeSecret, clientFinished, peerChain := s.handshakeSecret, s.clientFinished, s.peerChain;
    }

    /** sendServerParameters. */
    method SendServerParameters() returns (m: Option<Message>)
      modifies this`transcript, this`secrets, this`handshakeSecret
      ensures match SendParameters(env, ServerKeys(env, old(State())))
              case Err(_) => m == None && State() == ServerKeys(env, old(State()))
              case Ok((s, sent)) => m == Some(sent) && State() == s
    {
      transcript := transcript + env.encode(ClientHelloMsg(clientHello));
      transcript := transcript + env.encode(ServerHelloMsg(hello));
      var k := env.kdf(suite.hash);
      var earlySecret := if early.None? then Extract(k, None, []) else early.value;
      handshakeSecret := Extract(k, Some(shared), DeriveSecret(k, earlySecret, Derived, []));
      secrets := secrets.(incoming := DeriveSecret(k, handshakeSecret, ClientHandshakeTraffic, transcript));
      secrets := secrets.(outgoing := DeriveSecret(k, handshakeSecret, ServerHandshakeTraffic, transcript));
      var protocol := NegotiateProtocol(conf.protocols, clientHello.common.alpnProtocols);
      if protocol.None? {
        return None;
      }
      transcript := transcript + env.encode(EncryptedExtensions(protocol.value));
      return Some(EncryptedExtensions(protocol.value));
    }

    method SendCertificate(credential: Credential) returns (messages: seq<Message>)
      modifies this`transcript
      ensures (State(), messages) == SendServerCertificate(env, old(State()), credential)
    {
      messages := [];
      if usingPsk {
        return;
      }
      if !conf.clientAuth.NoClientCert? {
        transcript := transcript + env.encode(CertificateRequest);
        messages := [CertificateRequest];
      }
      var certificate := Certificate(credential.chain);
      transcript := transcript + env.encode(certificate);
      var signed := env.signedMessage(true, env.kdf(suite.hash).sum(transcript));
      var verify := CertificateVerify(env.signatures.sign(credential.key, signed));
      transcript := transcript + env.encode(verify);
      messages := messages + [certificate, verify];
    }

    method SendFinished() returns (m: Message)
      modifies this`transcript, this`secrets
      ensures (State(), m) == SendServerFinished(env, old(State()))
    {
      var k := env.kdf(suite.hash);
      m := Finished(FinishedHash(k, secrets.outgoing, transcript));
      transcript := transcript + env.encode(m);
      var master := Extract(k, None, DeriveSecret(k, handshakeSecret, Derived, []));
      secrets := secrets.(master := master);
      secrets := secrets.(clientApplication := DeriveSecret(k, master, ClientApplicationTraffic, transcript));
      secrets := secrets.(outgoing := DeriveSecret(k, master, ServerApplicationTraffic, transcript));
      secrets := secrets.(exporter := DeriveSecret(k, master, ExporterMaster, transcript));
    }

    /** sendSessionTickets. */
    method SendTickets() returns (messages: seq<Message>)
      modifies this`transcript, this`secrets, this`clientFinished
      ensures (State(), messages) == SendSessionTickets(env, old(State()))
    {
      var k := env.kdf(suite.hash);
      clientFinished := FinishedHash(k, secrets.incoming, transcript);
      transcript := transcript + env.encode(Finished(clientFinished));
      if conf.ticketsDisabled || PSK_MODE_DHE !in clientHello.modern.pskModes {
        return [];
      }
      var resumption := DeriveSecret(k, secrets.master, ResumptionMaster, transcript);
      secrets := secrets.(resumption := Some(resumption));
      return [NewSessionTicket(conf.seal(SessionState(suite.id, resumption, peerChain)), [], TICKET_LIFETIME)];
    }

    /** readClientCertificate up to the tickets. */
    method ReadCertificates(flight: seq<Message>) returns (r: Result<seq<Message>>)
      modifies this`transcript, this`peerChain
      ensures match ReadClientCertificate(env, old(State()), flight)
              case Err(failure) => r == Err(failure)
              case Ok((s, rest)) => State() == s && r == Ok(rest)
    {
      if flight == [] || !flight[0].Certificate? {
        return Err(Unexpected);
      }
      transcript := transcript + env.encode(flight[0]);
      var chain := flight[0].chain;
      if !ClientChainOk(conf, chain) {
        return Err(Refused);
      }
      peerChain := chain;
      if chain == [] {
        return Ok(flight[1..]);
      }
      if |flight| < 2 || !flight[1].CertificateVerify? {
        return Err(Unexpected);
      }
      var signed := env.signedMessage(false, env.kdf(suite.hash).sum(transcript));
      if !env.signatures.verify(chain, signed, flight[1].signature) {
        return Err(BadSignature);
      }
      transcript := transcript + env.encode(flight[1]);
      return Ok(flight[2..]);
    }

    method ReadFinished(m: Message) returns (err: Option<Failure>)
      modifies this`secrets
      ensures match ReadClientFinished(old(State()), m)
              case Err(failure) => err == Some(failure) && State() == old(State())
              case Ok(s) => err == None && State() == s
    {
      if !m.Finished? {
        return Some(Unexpected);
      }
      if m.verifyData != clientFinished {
        return Some(BadFinished);
      }
      secrets := secrets.(incoming := secrets.clientApplication);
      return None;
    }
  }

  lemma SelectSuiteFrom(preference: seq<u16>, offered: seq<u16>, i: nat)
    requires i < |preference|
    ensures SelectSuite(preference[i..], offered)
         == if MutualSuite(offered, preference[i]).Some? then MutualSuite(offered, preference[i]) else SelectSuite(preference[i + 1..], offered)
  {
    assert preference[i..][1..] == preference[i + 1..];
  }

  /** The suite loop of processClientHello: the first preferred suite that is mutual. */
  method ChooseSuite(preference: seq<u16>, offered: seq<u16>) returns (r: Option<Suite>)
    ensures r == SelectSuite(preference, offered)
  {
    for i := 0 to |preference|
      invariant SelectSuite(preference[i..], offered) == SelectSuite(preference, offered)
    {
      SelectSuiteFrom(preference, offered, i);
      r := MutualSuite(offered, preference[i]);
      if r.Some? {
        return r;
      }
    }
    return None;
  }

  method FindShare(shares: seq<KeyShare>, group: u16) returns (r: Option<KeyShare>)
    ensures r == FirstShare(shares, group)
  {
    for i := 0 to |shares|
      invariant FirstShare(shares[i..], group) == FirstShare(shares, group)
    {
      assert shares[i..][1..] == shares[i + 1..];
      if shares[i].group == group {
        return Some(shares[i]);
      }
    }
    return None;
  }

  /** The GroupSelection loop of processClientHello. */
  method ChooseGroup(preference: seq<u16>, shares: seq<KeyShare>, curves: seq<u16>) returns (group: u16, share: Option<KeyShare>)
    ensures (group, share) == SelectGroup(preference, shares, curves, 0)
  {
    group := 0;
    for i := 0 to |preference|
      invariant SelectGroup(preference[i..], shares, curves, group) == SelectGroup(preference, shares, curves, 0)
    {
      assert preference[i..][1..] == preference[i + 1..];
      share := FindShare(shares, preference[i]);
      if share.Some? {
        return share.value.group, share;
      }
      if group == 0 && preference[i] in curves {
        group := preference[i];
      }
    }
    assert preference[|preference|..] == [];
    share := None;
  }

  /** The identity loop of checkForResumption. */
  method ChoosePsk(env: Env, conf: ServerConf, ch: CH.Hello, suite: Suite, transcript: bytes) returns (r: Result<Option<Psk>>)
    requires |ch.modern.pskIdentities| == |ch.modern.pskBinders|
    ensures r == FindPsk(env, conf, ch, suite, transcript, 0)
  {
    var k := env.kdf(suite.hash);
    for i := 0 to |ch.modern.pskIdentities|
      invariant FindPsk(env, conf, ch, suite, transcript, i) == FindPsk(env, conf, ch, suite, transcript, 0)
    {
      if i >= MAX_CLIENT_PSK_IDENTITIES {
        return Ok(None);
      }
      var state := UsableTicket(conf, suite, ch.modern.pskIdentities[i].identity);
      if state.Some? {
        var early := Extract(k, Some(k.expandLabel(state.value.secret, Resumption, [])), []);
        var binderKey := DeriveSecret(k, early, ResumptionBinder, []);
        if ch.modern.pskBinders[i] != FinishedHash(k, binderKey, transcript + env.truncate(ch)) {
          return Err(BadBinder);
        }
        if !conf.acceptsClient(state.value.chain) {
          return Err(Refused);
        }
        return Ok(Some(Psk(i, early, state.value.chain)));
      }
    }
    return Ok(None);
  }

  /** The loop of checkALPN. */
  method CheckProtocol(clientProtocols: seq<bytes>, protocol: bytes) returns (ok: bool)
    ensures ok == AlpnOk(clientProtocols, protocol)
  {
    if protocol == [] {
      return true;
    }
    for i := 0 to |clientProtocols|
      invariant protocol !in clientProtocols[..i]
    {
      if clientProtocols[i] == protocol {
        return true;
      }
    }
    assert clientProtocols[..|clientProtocols|] == clientProtocols;
    return false;
  }

  /** The loops of negotiateALPN. */
  method NegotiateProtocol(serverProtocols: seq<bytes>, clientProtocols: seq<bytes>) returns (r: Option<bytes>)
    ensures r == NegotiateAlpn(serverProtocols, clientProtocols)
  {
    if serverProtocols == [] || clientProtocols == [] {
      return Some([]);
    }
    var fallback := false;
    for i := 0 to |serverProtocols|
      invariant FirstCommon(serverProtocols, clientProtocols) == FirstCommon(serverProtocols[i..], clientProtocols)
      invariant fallback <==> H2 in serverProtocols[..i] && HTTP11 in clientProtocols
    {
      assert serverProtocols[i..][1..] == serverProtocols[i + 1..];
      assert serverProtocols[..i + 1] == serverProtocols[..i] + [serverProtocols[i]];
      var s := serverProtocols[i];
      for j := 0 to |clientProtocols|
        invariant s !in clientProtocols[..j]
        invariant fallback <==> (H2 in serverProtocols[..i] && HTTP11 in clientProtocols) || (s == H2 && HTTP11 in clientProtocols[..j])
      {
        assert clientProtocols[..j + 1] == clientProtocols[..j] + [clientProtocols[j]];
        if s == clientProtocols[j] {
          return Some(s);
        }
        if s == H2 && clientProtocols[j] == HTTP11 {
          fallback := true;
        }
      }
      assert clientProtocols[..|clientProtocols|] == clientProtocols;
    }
    assert serverProtocols[..|serverProtocols|] == serverProtocols;
    return if fallback then Some([]) else None;
  }
}
