/**
 * The two handshake objects driven against each other, from the first ClientHello to the last Finished:
 * what they hold in the end is what the agreement theorems are about.
 */
module HandshakeRun {
  import opened Bytes
  import opened Wire
  import opened HelloParts
  import opened KeySchedule
  import opened Handshake13
  import opened HandshakeObjects
  import opened Agreement13
  import CH = ClientHello
  import SH = ServerHello

  /** processClientHello up to the choice of suite and group, with its loops. */
  method ServerAccepts(conf: ServerConf, ch: CH.Hello) returns (r: Result<Offer>)
    ensures r == AcceptHello(conf, ch)
  {
    if ch.modern.supportedVersions == [] || ch.compressionMethods != [0] {
      return Err(Illegal);
    }
    if ch.common.secureRenegotiation != [] || ch.modern.earlyData {
      return Err(Illegal);
    }
    var suite := ChooseSuite(conf.suitePreference, ch.cipherSuites);
    if suite.None? {
      return Err(Refused);
    }
    var group, share := ChooseGroup(conf.curvePreference, ch.modern.keyShares, ch.common.supportedCurves);
    if group == 0 {
      return Err(Refused);
    }
    return Ok(Offer(suite.value, group, share));
  }

  method ServerResumes(env: Env, conf: ServerConf, ch: CH.Hello, suite: Suite, transcript: bytes) returns (r: Result<Option<Psk>>)
    ensures r == CheckForResumption(env, conf, ch, suite, transcript)
  {
    if conf.ticketsDisabled || PSK_MODE_DHE !in ch.modern.pskModes {
      return Ok(None);
    }
    if |ch.modern.pskIdentities| != |ch.modern.pskBinders| {
      return Err(Illegal);
    }
    r := ChoosePsk(env, conf, ch, suite, transcript);
  }

  /** What the server knows before it answers. */
  function Ready(env: Env, conf: ServerConf, ch: CH.Hello, offer: Offer, psk: Option<Psk>, shared: bytes, transcript: bytes, d: Draws): Server {
    var own := KeyShare(offer.group, env.curves.public(offer.group, d.serverSecret));
    var index := if psk.Some? && psk.value.index < 0x1_0000 then psk.value.index else 0;
    var modern := SH.NO_MODERN.(serverShare := own, selectedIdentityPresent := psk.Some?, selectedIdentity := index);
    var (early, chain) := if psk.Some? then (Some(psk.value.early), psk.value.chain) else (None, []);
    Server(conf, ch, HelloFor(ch, offer.suite, d.serverRandom, modern), early, shared, chain, [], [],
           Core(offer.suite, transcript, psk.Some?, NO_SECRETS))
  }

  /** From the chosen share to a server object ready to answer. */
  method ServerPrepares(env: Env, conf: ServerConf, ch: CH.Hello, offer: Offer, share: KeyShare, transcript: bytes, d: Draws)
    returns (err: Option<Failure>, server: ServerHandshake?)
    ensures match PrepareServer(env, conf, ch, offer.suite, offer.group, share, transcript, d.serverRandom, d.serverSecret)
            case Err(failure) => err == Some(failure)
            case Ok(s) => err == None && server != null && fresh(server) && server.env == env && server.State() == s
  {
    server := null;
    if !env.curves.supported(offer.group) {
      return Some(Refused), null;
    }
    var shared := env.curves.agree(offer.group, d.serverSecret, share.data);
    if shared.None? {
      return Some(Illegal), null;
    }
    var psk := ServerResumes(env, conf, ch, offer.suite, transcript);
    if psk.Err? {
      return Some(psk.failure), null;
    }
    if psk.value.None? {
      if ch.common.signatureAlgorithms == [] {
        return Some(Illegal), null;
      }
      if conf.pick(ch).None? {
        return Some(Refused), null;
      }
    }
    server := new ServerHandshake(env, Ready(env, conf, ch, offer, psk.value, shared.value, transcript, d));
    return None, server;
  }

  /** Both objects when the server has settled its ServerHello and the client is about to read it. */
  ghost predicate At(env: Env, client: ClientHandshake, server: ServerHandshake, m: Meeting)
    reads client, server
  {
    && client.env == env && server.env == env && !client.certificateRequested
    && client.State() == m.client && client.HandshakeCore() == m.core && server.State() == m.server
  }

  method MeetWithoutRetry(env: Env, c: Client, conf: ServerConf, offer: Offer, d: Draws)
    returns (err: Option<Failure>, client: ClientHandshake?, server: ServerHandshake?)
    requires offer.share.Some?
    ensures match MeetDirectly(env, c, conf, offer, d)
            case Err(failure) => err == Some(failure)
            case Ok(m) => err == None && client != null && server != null && fresh(client) && fresh(server) && At(env, client, server, m)
  {
    client, server := null, null;
    err, server := ServerPrepares(env, conf, c.hello, offer, offer.share.value, [], d);
    if err.Some? {
      return;
    }
    var suite := CheckServerHello(c.hello, None, server.hello);
    if suite.Err? {
      return Some(suite.failure), null, null;
    }
    client := new ClientHandshake(env, c, suite.value);
  }

  method MeetWithRetry(env: Env, c: Client, conf: ServerConf, offer: Offer, d: Draws)
    returns (err: Option<Failure>, client: ClientHandshake?, server: ServerHandshake?)
    ensures match MeetAfterRetry(env, c, conf, offer, d)
            case Err(failure) => err == Some(failure)
            case Ok(m) => err == None && client != null && server != null && fresh(client) && fresh(server) && At(env, client, server, m)
  {
    client, server := null, null;
    var (hrr, transcript) := RetryRequest(env, c.hello, offer.suite, offer.group);
    var suite := CheckServerHello(c.hello, None, hrr);
    if suite.Err? {
      return Some(suite.failure), null, null;
    }
    client := new ClientHandshake(env, c, suite.value);
    err := client.ProcessHelloRetryRequest(hrr, d.retrySecret, d.retryAge);
    if err.Some? {
      return;
    }
    var share := AcceptSecondHello(c.hello, client.hello, offer.group);
    if share.Err? {
      return Some(share.failure), null, null;
    }
    err, server := ServerPrepares(env, conf, client.hello, offer, share.value, transcript, d);
    if err.Some? {
      return;
    }
    var again := CheckServerHello(client.hello, Some(suite.value), server.hello);
    if again.Err? {
      return Some(again.failure), null, null;
    }
  }

  method MeetObjects(env: Env, c: Client, conf: ServerConf, d: Draws)
    returns (err: Option<Failure>, client: ClientHandshake?, server: ServerHandshake?)
    ensures match Meet(env, c, conf, d)
            case Err(failure) => err == Some(failure)
            case Ok(m) => err == None && client != null && server != null && fresh(client) && fresh(server) && At(env, client, server, m)
  {
    var offer := ServerAccepts(conf, c.hello);
    if offer.Err? {
      return Some(offer.failure), null, null;
    }
    if offer.value.share.Some? {
      err, client, server := MeetWithoutRetry(env, c, conf, offer.value, d);
    } else {
      err, client, server := MeetWithRetry(env, c, conf, offer.value, d);
    }
  }

  /** The server's flight up to its Finished. */
  method SendFlight(server: ServerHandshake, credential: Credential) returns (r: Result<(Message, seq<Message>)>)
    modifies server
    ensures match ServerFlight(server.env, old(server.State()), credential)
            case Err(failure) => r == Err(failure)
            case Ok((s, parameters, flight)) => r == Ok((parameters, flight)) && server.State() == s
  {
    var parameters := server.SendServerParameters();
    if parameters.None? {
      return Err(Refused);
    }
    var certificates := server.SendCertificate(credential);
    var finished := server.SendFinished();
    return Ok((parameters.value, certificates + [finished]));
  }

  /** The client reads it. */
  method ReceiveFlight(client: ClientHandshake, sh: SH.Hello, parameters: Message, flight: seq<Message>) returns (err: Option<Failure>)
    requires !client.certificateRequested
    modifies client
    ensures client.State() == old(client.State())
    ensures match ReadFlight(client.env, old(client.State()), old(client.HandshakeCore()), sh, parameters, flight)
            case Err(failure) => err == Some(failure)
            case Ok((core, requested)) => err == None && client.HandshakeCore() == core && client.certificateRequested == requested
  {
    err := client.EstablishKeys(sh);
    if err.Some? {
      return;
    }
    err := client.ReadParameters(parameters);
    if err.Some? {
      return;
    }
    var rest := client.ReadCertificates(flight);
    if rest.Err? {
      return Some(rest.failure);
    }
    if rest.value == [] {
      return Some(Unexpected);
    }
    err := client.ReadFinished(rest.value[0]);
  }

  /** The server reads the client's flight; with a certificate request it sends its ticket only now. */
  method ReceiveClientFlight(server: ServerHandshake, flight: seq<Message>) returns (r: Result<seq<Message>>)
    modifies server
    ensures match ReadClientFlight(server.env, old(server.State()), flight)
            case Err(failure) => r == Err(failure)
            case Ok((s, tickets)) => r == Ok(tickets) && server.State() == s
  {
    var rest, tickets := flight, [];
    if !server.conf.clientAuth.NoClientCert? && !server.usingPsk {
      var read := server.ReadCertificates(flight);
      if read.Err? {
        return Err(read.failure);
      }
      tickets := server.SendTickets();
      rest := read.value;
    }
    if rest == [] {
      return Err(Unexpected);
    }
    var err := server.ReadFinished(rest[0]);
    return if err.Some? then Err(err.value) else Ok(tickets);
  }

  /** From the server's Finished to the end. */
  method ConcludeObjects(client: ClientHandshake, server: ServerHandshake) returns (err: Option<Failure>, finished: Message, tickets: seq<Message>)
    requires client.env == server.env
    modifies client, server
    ensures match Conclude(client.env, client.conf, old(client.HandshakeCore()), old(server.State()), old(client.certificateRequested))
            case Err(failure) => err == Some(failure)
            case Ok(done) => err == None && done == Completed(client.HandshakeCore(), server.State(), finished, tickets)
  {
    tickets := [];
    if server.conf.clientAuth.NoClientCert? || server.usingPsk {
      tickets := server.SendTickets();
    }
    var certificates := client.SendCertificate();
    finished := client.SendFinished();
    var late := ReceiveClientFlight(server, certificates + [finished]);
    if late.Err? {
      return Some(late.failure), finished, tickets;
    }
    return None, finished, tickets + late.value;
  }

  method ExchangeObjects(env: Env, client: ClientHandshake, server: ServerHandshake, ghost m: Meeting)
    returns (err: Option<Failure>, finished: Message, tickets: seq<Message>)
    requires At(env, client, server, m)
    modifies client, server
    ensures match Exchange(env, m)
            case Err(failure) => err == Some(failure)
            case Ok(done) => err == None && done == Completed(client.HandshakeCore(), server.State(), finished, tickets)
  {
    finished, tickets := Finished([]), [];
    var picked := server.conf.pick(server.clientHello);
    var sent := SendFlight(server, if picked.Some? then picked.value else NO_CREDENTIAL);
    if sent.Err? {
      return Some(sent.failure), finished, tickets;
    }
    err := ReceiveFlight(client, server.hello, sent.value.0, sent.value.1);
    if err.Some? {
      return;
    }
    err, finished, tickets := ConcludeObjects(client, server);
  }

  /**
   * A whole honest handshake between two objects, with a retry or without, resuming or not, with or
   * without client certificates: it stops only by refusal, or leaves both objects in agreement.
   */
  method HonestHandshakeOfObjects(env: Env, conf: ClientConf, hello: CH.Hello, key: PrivateKey, session: Option<Session>, age: u32,
                                  sconf: ServerConf, d: Draws)
    returns (err: Option<Failure>, client: ClientHandshake?, server: ServerHandshake?, finished: Message, tickets: seq<Message>)
    requires HelloOk(env, hello, key) && DrawsOk(d) && (session.Some? ==> SessionOk(sconf, session.value))
    requires forall ch :: CredentialsOk(env, conf, sconf, ch)
    requires !RetriesWithPsk(sconf, StartClient(env, conf, hello, key, session, age))
    ensures err.Some? ==> err.value == Refused
    ensures err.None? ==> client != null && server != null && fresh(client) && fresh(server) && server.conf == sconf
    ensures err.None? ==> Concluded(Completed(client.HandshakeCore(), server.State(), finished, tickets))
    ensures err.None? ==> client.secrets.incoming == server.secrets.outgoing && client.secrets.outgoing == server.secrets.incoming
    ensures err.None? ==> client.transcript == server.transcript && finished == Finished(server.clientFinished)
  {
    var c := StartClient(env, conf, hello, key, session, age);
    HonestHandshake(env, conf, hello, key, session, age, sconf, d);
    finished, tickets := Finished([]), [];
    err, client, server := MeetObjects(env, c, sconf, d);
    if err.None? {
      err, finished, tickets := ExchangeObjects(env, client, server, Meet(env, c, sconf, d).value);
    }
  }
}
