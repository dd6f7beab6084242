/**
 * Honest runs in which a retry keeps a PSK, and the transcripts part: for any hash, any curves and any
 * encoding of messages.
 */
module Retry13 {
  import opened Bytes
  import opened Wire
  import opened HelloParts
  import opened Extensions
  import opened KeySchedule
  import opened Handshake13
  import opened Agreement13
  import CH = ClientHello
  import SH = ServerHello
  import Codec = ClientHelloCodec

  const X25519 := 29
  const P256 := 23
  const AES128_SHA256 := 0x1301
  const RSA_PSS_SHA256 := 0x0804

  /** Both groups exist, and no message encodes to nothing. */
  ghost predicate Ordinary(env: Env) {
    env.curves.supported(X25519) && env.curves.supported(P256) && forall m: Message :: env.encode(m) != []
  }

  /** A hello with a share for X25519 that also supports P-256. */
  function FirstHello(env: Env, secret: bytes): CH.Hello {
    CH.Hello.Hello(VERSION_TLS12, Repeat(1, 32), Repeat(2, 32), [AES128_SHA256], [0],
                   Codec.NO_COMMON.(supportedCurves := [X25519, P256], signatureAlgorithms := [RSA_PSS_SHA256]),
                   Codec.NO_MODERN.(supportedVersions := [VERSION_TLS13],
                                    keyShares := [KeyShare(X25519, env.curves.public(X25519, secret))], pskModes := [PSK_MODE_DHE]))
  }

  /** A session from some earlier connection. */
  function Resumed(ticket: bytes, resumption: bytes): Session {
    Session(ticket, Suite(AES128_SHA256, Sha256), resumption, [])
  }

  /** A server that prefers P-256, has a certificate, and no longer has the key of the ticket. */
  function P256Server(credential: Credential): ServerConf {
    ServerConf([AES128_SHA256], [P256], [], NoClientCert, _ => true, _ => Some(credential), false, _ => None, _ => [])
  }

  function FirstClient(env: Env, conf: ClientConf, secret: bytes, session: Session): Client {
    StartClient(env, conf, FirstHello(env, secret), PrivateKey(X25519, secret), Some(session), 0)
  }

  /** The server cannot use the X25519 share and asks for P-256; the client's PSK fits its suite. */
  lemma ExampleRetries(env: Env, conf: ClientConf, secret: bytes, ticket: bytes, resumption: bytes, credential: Credential)
    requires Ordinary(env)
    ensures var session := Resumed(ticket, resumption);
            var c := FirstClient(env, conf, secret, session);
            && HelloOk(env, c.hello, c.key) && Offers(env, c, []) && SessionOk(P256Server(credential), session)
            && RetriesWithPsk(P256Server(credential), c)
            && AcceptHello(P256Server(credential), c.hello) == Ok(Offer(Suite(AES128_SHA256, Sha256), P256, None))
  {
    var (c, sconf) := (FirstClient(env, conf, secret, Resumed(ticket, resumption)), P256Server(credential));
    StartedOffers(env, conf, FirstHello(env, secret), PrivateKey(X25519, secret), Some(Resumed(ticket, resumption)), 0);
    assert SelectSuite(sconf.suitePreference, c.hello.cipherSuites) == Some(Suite(AES128_SHA256, Sha256));
    var shares := c.hello.modern.keyShares;
    assert FirstShare(shares[1..], P256) == None;
    assert FirstShare(shares, P256) == None;
    assert c.hello.common.supportedCurves[1] == P256;
    assert SelectGroup(sconf.curvePreference[1..], shares, c.hello.common.supportedCurves, P256) == (P256, None);
    assert SelectGroup(sconf.curvePreference, shares, c.hello.common.supportedCurves, 0) == (P256, None);
  }

  /** No ticket opens, so no PSK is used and no binder looked at. */
  lemma NothingResumed(env: Env, ch: CH.Hello, suite: Suite, transcript: bytes, credential: Credential)
    requires |ch.modern.pskIdentities| == |ch.modern.pskBinders| == 1
    ensures CheckForResumption(env, P256Server(credential), ch, suite, transcript) == Ok(None)
  {
    assert FindPsk(env, P256Server(credential), ch, suite, transcript, 1) == Ok(None);
  }

  lemma ExamplePrepares(env: Env, c: Client, transcript: bytes, credential: Credential, d: Draws)
    requires Ordinary(env) && c.key.group == P256 && c.hello.common.signatureAlgorithms != []
    requires |c.hello.modern.pskIdentities| == |c.hello.modern.pskBinders| == 1
    ensures var share := KeyShare(P256, env.curves.public(P256, c.key.secret));
            var r := PrepareServer(env, P256Server(credential), c.hello, Suite(AES128_SHA256, Sha256), P256, share, transcript, d.serverRandom, d.serverSecret);
            r.Ok? && r.value.hello == HelloFor(c.hello, Suite(AES128_SHA256, Sha256), d.serverRandom, r.value.hello.modern)
  {
    assert Commutes(env.curves, P256, d.serverSecret, c.key.secret);
    NothingResumed(env, c.hello, Suite(AES128_SHA256, Sha256), transcript, credential);
  }

  lemma RetriedKeepsPsk(env: Env, c: Client, core: Core, hrr: SH.Hello, secret: bytes, age: u32)
    requires RetainsPsk(c, core.suite) && |c.hello.modern.pskIdentities| == 1
    ensures match ClientRetry(env, c, core, hrr, secret, age)
            case Err(_) => true
            case Ok((c2, _)) => |c2.hello.modern.pskIdentities| == |c2.hello.modern.pskBinders| == 1
  {
  }

  lemma ExampleMeets(env: Env, conf: ClientConf, secret: bytes, ticket: bytes, resumption: bytes, credential: Credential, d: Draws)
    requires Ordinary(env)
    ensures Meet(env, FirstClient(env, conf, secret, Resumed(ticket, resumption)), P256Server(credential), d).Ok?
  {
    var (c, sconf, suite) := (FirstClient(env, conf, secret, Resumed(ticket, resumption)), P256Server(credential), Suite(AES128_SHA256, Sha256));
    ExampleRetries(env, conf, secret, ticket, resumption, credential);
    assert c.hello.common.supportedCurves[1] == P256;
    RetriedClient(env, c, suite, P256, d);
    AnswerChecks(c.hello, suite, HELLO_RETRY_RANDOM, SH.NO_MODERN.(selectedGroup := P256), None);
    var (hrr, transcript) := RetryRequest(env, c.hello, suite, P256);
    var core := FirstCore(env, suite, c.hello);
    ExampleAllowed(env, c, hrr, d.retrySecret);
    RetriedKeepsPsk(env, c, core, hrr, d.retrySecret, d.retryAge);
    var c2 := ClientRetry(env, c, core, hrr, d.retrySecret, d.retryAge).value.0;
    ExamplePrepares(env, c2, transcript, credential, d);
    var s := PrepareServer(env, sconf, c2.hello, suite, P256, c2.hello.modern.keyShares[0], transcript, d.serverRandom, d.serverSecret).value;
    AnswerChecks(c2.hello, suite, d.serverRandom, s.hello.modern, Some(suite));
  }

  lemma ExampleAllowed(env: Env, c: Client, hrr: SH.Hello, secret: bytes)
    requires env.curves.supported(P256) && hrr.modern == SH.NO_MODERN.(selectedGroup := P256, supportedVersion := VERSION_TLS13)
    requires P256 in c.hello.common.supportedCurves && c.key.group == X25519
    ensures RetryAllowed(env, c, hrr, secret).Ok?
  {
  }

  /**
   * Whatever the hash, the curves and the keys: the client's retry is accepted, no check fails up to the
   * ServerHello, and the transcripts differ there.
   */
  lemma ExampleDiverges(env: Env, conf: ClientConf, secret: bytes, ticket: bytes, resumption: bytes, credential: Credential, d: Draws)
    requires Ordinary(env)
    ensures var m := Meet(env, FirstClient(env, conf, secret, Resumed(ticket, resumption)), P256Server(credential), d);
            m.Ok? && !TranscriptsMeet(env, m.value)
  {
    ExampleRetries(env, conf, secret, ticket, resumption, credential);
    ExampleMeets(env, conf, secret, ticket, resumption, credential, d);
    TranscriptsMeetExactly(env, FirstClient(env, conf, secret, Resumed(ticket, resumption)), P256Server(credential), d);
  }

  /** Small enough for any length prefix of the hello. */
  const SMALL := 1000

  lemma {:induction false} CodesLength(xs: seq<u16>)
    ensures |Written(xs, Codes())| == 2 * |xs|
  {
    if xs != [] {
      CodesLength(xs[1..]);
    }
  }

  /** The first hello with a PSK of ordinary size. */
  ghost predicate OrdinarySizes(hello: CH.Hello) {
    && |hello.modern.keyShares| == |hello.modern.pskIdentities| == |hello.modern.pskBinders| == 1
    && 0 < |hello.modern.keyShares[0].data| <= SMALL && 0 < |hello.modern.pskIdentities[0].identity| <= SMALL
    && 0 < |hello.modern.pskBinders[0]| < 0x100
  }

  lemma ListSizes(hello: CH.Hello)
    requires OrdinarySizes(hello)
    ensures |Written(hello.modern.keyShares, Shares())| == 4 + |hello.modern.keyShares[0].data|
    ensures |Written(hello.modern.pskIdentities, CH.Identities())| == 6 + |hello.modern.pskIdentities[0].identity|
    ensures |Written(hello.modern.pskBinders, Vectors(1))| == 1 + |hello.modern.pskBinders[0]|
  {
    assert Written(hello.modern.keyShares[1..], Shares()) == [];
    assert Written(hello.modern.pskIdentities[1..], CH.Identities()) == [];
    assert Written(hello.modern.pskBinders[1..], Vectors(1)) == [];
  }

  predicate BodySmall(f: Option<CH.Extension>) {
    f.Some? ==> |CH.Body(f.value)| <= 2 * SMALL
  }

  lemma SmallIsShort(f: Option<CH.Extension>)
    requires BodySmall(f)
    ensures FieldShort(Codec.ClientSchema(), f, 2 * SMALL + 4)
  {
  }

  lemma ModernFieldSmall(hello: CH.Hello, k: nat)
    requires 10 <= k < Codec.FIELDS && OrdinarySizes(hello)
    requires |hello.modern.supportedVersions| == 1 && |hello.modern.pskModes| == 1 && hello.modern.cookie == []
    ensures var f := Codec.ModernField(hello.modern, k); Codec.FieldFits(f) && BodySmall(f)
  {
    PowersOf256();
    CodesLength(hello.modern.supportedVersions);
    ListSizes(hello);
  }

  lemma CommonFieldSmall(hello: CH.Hello, k: nat)
    requires k < 10
    requires hello.common == Codec.NO_COMMON.(supportedCurves := [X25519, P256], signatureAlgorithms := [RSA_PSS_SHA256])
    ensures var f := Codec.CommonField(hello.common, k); Codec.FieldFits(f) && BodySmall(f)
  {
    PowersOf256();
    CodesLength([X25519, P256]);
    CodesLength([RSA_PSS_SHA256]);
  }

  /** The first hello of such a run can be sent: marshal reports no error, and the server reads it back unchanged. */
  lemma ExampleCanBeSent(env: Env, conf: ClientConf, secret: bytes, ticket: bytes, resumption: bytes)
    requires 0 < |ticket| <= SMALL && 0 < |env.curves.public(X25519, secret)| <= SMALL && 0 < env.kdf(Sha256).size < 0x100
    ensures var hello := FirstClient(env, conf, secret, Resumed(ticket, resumption)).hello;
            Codec.Fits(hello) && Codec.Unmarshal(Codec.HelloBytes(hello)) == Some(hello)
  {
    var hello := FirstClient(env, conf, secret, Resumed(ticket, resumption)).hello;
    SentSizes(env, conf, secret, ticket, resumption);
    FieldsSmall(hello);
    CodesLength(hello.cipherSuites);
    Codec.HelloRoundTrip(hello);
  }

  ghost predicate Plain(hello: CH.Hello) {
    && OrdinarySizes(hello)
    && hello.common == Codec.NO_COMMON.(supportedCurves := [X25519, P256], signatureAlgorithms := [RSA_PSS_SHA256])
    && |hello.modern.supportedVersions| == 1 && |hello.modern.pskModes| == 1 && hello.modern.cookie == []
  }

  lemma FieldSmall(hello: CH.Hello, k: nat)
    requires Plain(hello) && k < Codec.FIELDS
    ensures Codec.FieldFits(Codec.Field(hello, k)) && FieldShort(Codec.ClientSchema(), Codec.Field(hello, k), 2 * SMALL + 4)
  {
    if k < 10 {
      CommonFieldSmall(hello, k);
    } else {
      ModernFieldSmall(hello, k);
    }
    SmallIsShort(Codec.Field(hello, k));
  }

  lemma AllShort(hello: CH.Hello, schema: Schema<CH.Hello, CH.Extension>, fields: Fields<CH.Extension>)
    requires Plain(hello) && schema == Codec.ClientSchema() && forall k: nat :: fields(k) == Codec.Field(hello, k)
    ensures forall k :: 0 <= k < Codec.FIELDS ==> FieldShort(schema, fields(k), 2 * SMALL + 4)
  {
    forall k | 0 <= k < Codec.FIELDS
      ensures FieldShort(schema, fields(k), 2 * SMALL + 4)
    {
      FieldSmall(hello, k);
    }
  }

  lemma ShortBlock(hello: CH.Hello)
    requires Plain(hello)
    ensures |Codec.ExtensionsOf(hello)| < 0x1_0000
  {
    var (schema, fields) := (Codec.ClientSchema(), Codec.FieldsOf(hello));
    AllShort(hello, schema, fields);
    SixteenShort(schema, fields);
  }

  lemma SixteenShort<M, E>(schema: Schema<M, E>, fields: Fields<E>)
    requires forall k :: 0 <= k < Codec.FIELDS ==> FieldShort(schema, fields(k), 2 * SMALL + 4)
    ensures |ExtensionBytes(schema, fields, 0, Codec.FIELDS)| < 0x1_0000
  {
    BlockBound(schema, fields, 0, Codec.FIELDS, 2 * SMALL + 4);
  }

  lemma FieldsSmall(hello: CH.Hello)
    requires Plain(hello)
    ensures forall k :: 0 <= k < Codec.FIELDS ==> Codec.FieldFits(Codec.Field(hello, k))
    ensures |Codec.ExtensionsOf(hello)| < 0x1_0000
  {
    ShortBlock(hello);
    forall k | 0 <= k < Codec.FIELDS
      ensures Codec.FieldFits(Codec.Field(hello, k))
    {
      FieldSmall(hello, k);
    }
  }

  lemma SentSizes(env: Env, conf: ClientConf, secret: bytes, ticket: bytes, resumption: bytes)
    requires 0 < |ticket| <= SMALL && 0 < |env.curves.public(X25519, secret)| <= SMALL && 0 < env.kdf(Sha256).size < 0x100
    ensures var hello := FirstClient(env, conf, secret, Resumed(ticket, resumption)).hello;
            && OrdinarySizes(hello) && Codec.Sane(hello) && hello.common == FirstHello(env, secret).common
            && hello.cipherSuites == [AES128_SHA256] && |hello.random| == |hello.sessionId| == 32 && hello.compressionMethods == [0]
            && |hello.modern.supportedVersions| == 1 && |hello.modern.pskModes| == 1 && hello.modern.cookie == []
  {
  }
}
