/** handshake_messages.go: marshal and unmarshal of the whole ClientHello. */
module ClientHelloCodec {
  import opened Bytes
  import opened Wire
  import opened HelloParts
  import opened ClientHello
  import opened Extensions

  const NO_COMMON := Common([], false, [], [], false, [], [], [], false, [], [], false)
  const NO_MODERN := Modern([], [], [], false, [], [], [])

  /** How many optional extensions marshal knows; it tries them in a fixed order. */
  const FIELDS := 16

  function Present(e: Extension, present: bool): Option<Extension> {
    if present then Some(e) else None
  }

  function CommonField(c: Common, k: nat): Option<Extension> {
    match k
    case 0 => Present(HostName(c.serverName), c.serverName != [])
    case 1 => Present(StatusRequest(true), c.ocspStapling)
    case 2 => Present(CodeList(EXTENSION_SUPPORTED_CURVES, c.supportedCurves), c.supportedCurves != [])
    case 3 => Present(Vector(EXTENSION_SUPPORTED_POINTS, c.supportedPoints), c.supportedPoints != [])
    case 4 => Present(SessionTicket(c.sessionTicket), c.ticketSupported)
    case 5 => Present(CodeList(EXTENSION_SIGNATURE_ALGORITHMS, c.signatureAlgorithms), c.signatureAlgorithms != [])
    case 6 => Present(CodeList(EXTENSION_SIGNATURE_ALGORITHMS_CERT, c.signatureAlgorithmsCert), c.signatureAlgorithmsCert != [])
    case 7 => Present(Vector(EXTENSION_RENEGOTIATION_INFO, c.secureRenegotiation), c.secureRenegotiationSupported)
    case 8 => Present(Alpn(c.alpnProtocols), c.alpnProtocols != [])
    case _ => Present(Flag(EXTENSION_SCT), c.scts)
  }

  function ModernField(x: Modern, k: nat): Option<Extension> {
    match k
    case 10 => Present(CodeList(EXTENSION_SUPPORTED_VERSIONS, x.supportedVersions), x.supportedVersions != [])
    case 11 => Present(Vector(EXTENSION_COOKIE, x.cookie), x.cookie != [])
    case 12 => Present(KeyShares(x.keyShares), x.keyShares != [])
    case 13 => Present(Flag(EXTENSION_EARLY_DATA), x.earlyData)
    case 14 => Present(Vector(EXTENSION_PSK_MODES, x.pskModes), x.pskModes != [])
    case _ => Present(PreSharedKey(x.pskIdentities, x.pskBinders), x.pskIdentities != [])
  }

  function Field(m: Hello, k: nat): Option<Extension> {
    if k < 10 then CommonField(m.common, k) else ModernField(m.modern, k)
  }

  function FieldsOf(m: Hello): Fields<Extension> {
    (k: nat) => Field(m, k)
  }

  function FieldCode(k: nat): u16 {
    match k
    case 0 => EXTENSION_SERVER_NAME
    case 1 => EXTENSION_STATUS_REQUEST
    case 2 => EXTENSION_SUPPORTED_CURVES
    case 3 => EXTENSION_SUPPORTED_POINTS
    case 4 => EXTENSION_SESSION_TICKET
    case 5 => EXTENSION_SIGNATURE_ALGORITHMS
    case 6 => EXTENSION_SIGNATURE_ALGORITHMS_CERT
    case 7 => EXTENSION_RENEGOTIATION_INFO
    case 8 => EXTENSION_ALPN
    case 9 => EXTENSION_SCT
    case 10 => EXTENSION_SUPPORTED_VERSIONS
    case 11 => EXTENSION_COOKIE
    case 12 => EXTENSION_KEY_SHARE
    case 13 => EXTENSION_EARLY_DATA
    case 14 => EXTENSION_PSK_MODES
    case _ => EXTENSION_PRE_SHARED_KEY
  }

  function ExtensionsOf(m: Hello): bytes {
    ExtensionBytes(ClientSchema(), FieldsOf(m), 0, FIELDS)
  }

  /** The part before the extensions. */
  function FixedBytes(m: Hello): bytes {
    Be(m.vers, 2) + (m.random + (Prefixed(m.sessionId, 1) + (EncodeList(m.cipherSuites, 2, Codes()) + Prefixed(m.compressionMethods, 1))))
  }

  function HelloBytes(m: Hello): bytes {
    [TYPE_CLIENT_HELLO] + Prefixed(FixedBytes(m) + ExtensionBlock(ExtensionsOf(m)), 3)
  }

  predicate FixedFits(m: Hello) {
    |m.random| == 32 && |m.sessionId| < 0x100 && |Written(m.cipherSuites, Codes())| < 0x1_0000 && |m.compressionMethods| < 0x100
  }

  predicate FieldFits(f: Option<Extension>) {
    f.Some? ==> ExtensionFits(f.value)
  }

  /** Nothing overflows its length prefix and random has 32 octets: when marshal reports no error. */
  predicate Fits(m: Hello) {
    && FixedFits(m) && |ExtensionsOf(m)| < 0x1_0000
    && forall k :: 0 <= k < FIELDS ==> FieldFits(Field(m, k))
  }

  function Marshal(m: Hello): Option<bytes> {
    if Fits(m) then Some(HelloBytes(m)) else None
  }

  function AssignCommon(c: Common, e: Extension): Common {
    match e
    case HostName(name) => c.(serverName := name)
    case StatusRequest(ocsp) => c.(ocspStapling := ocsp)
    case CodeList(code, codes) =>
      if code == EXTENSION_SUPPORTED_CURVES then c.(supportedCurves := codes)
      else if code == EXTENSION_SIGNATURE_ALGORITHMS then c.(signatureAlgorithms := codes)
      else if code == EXTENSION_SIGNATURE_ALGORITHMS_CERT then c.(signatureAlgorithmsCert := codes)
      else c
    case Vector(code, data) =>
      if code == EXTENSION_SUPPORTED_POINTS then c.(supportedPoints := data)
      else if code == EXTENSION_RENEGOTIATION_INFO then c.(secureRenegotiationSupported := true, secureRenegotiation := data)
      else c
    case SessionTicket(ticket) => c.(ticketSupported := true, sessionTicket := ticket)
    case Alpn(protocols) => c.(alpnProtocols := protocols)
    case Flag(code) => if code == EXTENSION_SCT then c.(scts := true) else c
    case _ => c
  }

  function AssignModern(x: Modern, e: Extension): Modern {
    match e
    case CodeList(code, codes) => if code == EXTENSION_SUPPORTED_VERSIONS then x.(supportedVersions := codes) else x
    case Vector(code, data) =>
      if code == EXTENSION_COOKIE then x.(cookie := data)
      else if code == EXTENSION_PSK_MODES then x.(pskModes := data)
      else x
    case KeyShares(shares) => x.(keyShares := shares)
    case Flag(code) => if code == EXTENSION_EARLY_DATA then x.(earlyData := true) else x
    case PreSharedKey(identities, binders) => x.(pskIdentities := identities, pskBinders := binders)
    case _ => x
  }

  /** What a decoded extension sets. */
  function Assign(m: Hello, e: Extension): Hello {
    m.(common := AssignCommon(m.common, e), modern := AssignModern(m.modern, e))
  }

  predicate MustBeLast(code: u16) {
    code == EXTENSION_PRE_SHARED_KEY
  }

  function ClientSchema(): Schema<Hello, Extension> {
    Schema(RawExtensions(), Code, Body, DecodeBody, Assign, MustBeLast)
  }

  /** A message with no extension read yet; the signalling cipher suite already counts. */
  function Bare(vers: u16, random: bytes, sessionId: bytes, cipherSuites: seq<u16>, compressionMethods: bytes): Hello {
    Hello(vers, random, sessionId, cipherSuites, compressionMethods,
          NO_COMMON.(secureRenegotiationSupported := SCSV_RENEGOTIATION in cipherSuites), NO_MODERN)
  }

  function ParseSuites(vers: u16, random: bytes, sessionId: bytes, s: bytes): Option<(Hello, bytes)> {
    match ReadPrefixed(s, 2)
    case None => None
    case Some((list, tail)) =>
      match (Elements(list, Codes()), ReadPrefixed(tail, 1))
      case (Some(cipherSuites), Some((methods, rest))) => Some((Bare(vers, random, sessionId, cipherSuites, methods), rest))
      case _ => None
  }

  /** The part before the extensions. */
  function ParseFixed(s: bytes): Option<(Hello, bytes)> {
    match ReadU16(s)
    case None => None
    case Some((vers, tail)) =>
      if |tail| < 32 then None
      else
        match ReadPrefixed(tail[32..], 1)
        case None => None
        case Some((sessionId, rest)) => ParseSuites(vers, tail[..32], sessionId, rest)
  }

  function Unmarshal(data: bytes): Option<Hello> {
    if |data| < 4 then None
    else
      match ParseFixed(data[4..])
      case None => None
      case Some((m, rest)) => ParseBlock(ClientSchema(), m, rest)
  }

  /** Field combinations that survive: nothing set that its extension would not carry. */
  predicate CommonSane(c: Common, scsv: bool) {
    && HostSane(c.serverName) && NoneEmpty(c.alpnProtocols)
    && (!c.ticketSupported ==> c.sessionTicket == [])
    && (!c.secureRenegotiationSupported ==> c.secureRenegotiation == [])
    && (scsv ==> c.secureRenegotiationSupported)
  }

  predicate ModernSane(x: Modern) {
    SharesSane(x.keyShares) && PskSane(x.pskIdentities, x.pskBinders)
  }

  predicate Sane(m: Hello) {
    CommonSane(m.common, SCSV_RENEGOTIATION in m.cipherSuites) && ModernSane(m.modern)
  }

  function UptoCommon(c: Common, scsv: bool, k: nat): Common {
    Common(
      if k > 0 then c.serverName else [],
      k > 1 && c.ocspStapling,
      if k > 2 then c.supportedCurves else [],
      if k > 3 then c.supportedPoints else [],
      k > 4 && c.ticketSupported,
      if k > 4 then c.sessionTicket else [],
      if k > 5 then c.signatureAlgorithms else [],
      if k > 6 then c.signatureAlgorithmsCert else [],
      if k > 7 then c.secureRenegotiationSupported else scsv,
      if k > 7 then c.secureRenegotiation else [],
      if k > 8 then c.alpnProtocols else [],
      k > 9 && c.scts)
  }

  function UptoModern(x: Modern, k: nat): Modern {
    Modern(
      if k > 10 then x.supportedVersions else [],
      if k > 11 then x.cookie else [],
      if k > 12 then x.keyShares else [],
      k > 13 && x.earlyData,
      if k > 14 then x.pskModes else [],
      if k > 15 then x.pskIdentities else [],
      if k > 15 then x.pskBinders else [])
  }

  /** What has been read of a message when its first k extensions have been. */
  function Upto(m: Hello, k: nat): Hello {
    m.(common := UptoCommon(m.common, SCSV_RENEGOTIATION in m.cipherSuites, k), modern := UptoModern(m.modern, k))
  }

  function UptoOf(m: Hello): nat -> Hello {
    (k: nat) => Upto(m, k)
  }

  predicate CommonStep(c: Common, scsv: bool, k: nat) {
    match CommonField(c, k)
    case None => UptoCommon(c, scsv, k + 1) == UptoCommon(c, scsv, k)
    case Some(e) => UptoCommon(c, scsv, k + 1) == AssignCommon(UptoCommon(c, scsv, k), e)
  }

  lemma FirstCommonFields(c: Common, scsv: bool, k: nat)
    requires k < 5 && CommonSane(c, scsv)
    ensures CommonStep(c, scsv, k)
  {
  }

  lemma MoreCommonFields(c: Common, scsv: bool, k: nat)
    requires 5 <= k < 10 && CommonSane(c, scsv)
    ensures CommonStep(c, scsv, k)
  {
    match k
    case 5 =>
    case 6 =>
    case 7 =>
    case 8 =>
    case 9 =>
  }

  lemma CommonFieldAssigned(c: Common, scsv: bool, k: nat)
    requires k < 10 && CommonSane(c, scsv)
    ensures CommonStep(c, scsv, k)
  {
    if k < 5 {
      FirstCommonFields(c, scsv, k);
    } else {
      MoreCommonFields(c, scsv, k);
    }
  }

  lemma ModernFieldAssigned(x: Modern, k: nat)
    requires 10 <= k < FIELDS && ModernSane(x)
    ensures var f := ModernField(x, k);
            && (f.None? ==> UptoModern(x, k + 1) == UptoModern(x, k))
            && (f.Some? ==> UptoModern(x, k + 1) == AssignModern(UptoModern(x, k), f.value))
  {
  }

  lemma FieldsApart(c: Common, x: Modern, x1: Modern, c1: Common, k: nat)
    ensures k < 10 && CommonField(c, k).Some? ==> AssignModern(x1, CommonField(c, k).value) == x1
    ensures 10 <= k < FIELDS && ModernField(x, k).Some? ==> AssignCommon(c1, ModernField(x, k).value) == c1
  {
  }

  lemma FieldAssigned(m: Hello, k: nat)
    requires k < FIELDS && Sane(m)
    ensures var f := Field(m, k);
            && (f.None? ==> Upto(m, k + 1) == Upto(m, k))
            && (f.Some? ==> Upto(m, k + 1) == Assign(Upto(m, k), f.value))
  {
    var scsv := SCSV_RENEGOTIATION in m.cipherSuites;
    FieldsApart(m.common, m.modern, UptoModern(m.modern, k), UptoCommon(m.common, scsv, k), k);
    if k < 10 {
      CommonFieldAssigned(m.common, scsv, k);
    } else {
      ModernFieldAssigned(m.modern, k);
    }
  }

  lemma FieldIsSane(m: Hello, k: nat)
    requires k < FIELDS && Sane(m) && Field(m, k).Some?
    ensures var e := Field(m, k).value; ExtensionSane(e) && Emitted(e)
  {
  }

  lemma FieldHasCode(m: Hello, k: nat)
    requires k < FIELDS && Field(m, k).Some?
    ensures Code(Field(m, k).value) == FieldCode(k) && (MustBeLast(FieldCode(k)) ==> k == FIELDS - 1)
  {
  }

  lemma FieldCodesDiffer(j: nat, k: nat)
    requires j < k < FIELDS
    ensures FieldCode(j) != FieldCode(k)
  {
  }

  lemma FieldsDistinct(m: Hello)
    ensures Distinct(ClientSchema(), FieldsOf(m), FIELDS)
  {
    forall j, k | 0 <= j < k < FIELDS
      ensures Apart(ClientSchema(), FieldsOf(m)(j), FieldsOf(m)(k))
    {
      FieldCodesDiffer(j, k);
      if Field(m, j).Some? && Field(m, k).Some? {
        FieldHasCode(m, j);
        FieldHasCode(m, k);
      }
    }
  }

  lemma ReadBack(e: Extension)
    requires ExtensionFits(e) && ExtensionSane(e) && Emitted(e)
    ensures RoundTrips(ClientSchema(), e)
  {
    PowersOf256();
    BodyRoundTrip(e);
  }

  lemma FieldIsRegular(m: Hello, k: nat)
    requires k < FIELDS && Sane(m) && FieldFits(Field(m, k))
    ensures Regular(ClientSchema(), FieldsOf(m), UptoOf(m), k, FIELDS)
  {
    FieldAssigned(m, k);
    if Field(m, k).Some? {
      FieldIsSane(m, k);
      FieldHasCode(m, k);
      ReadBack(Field(m, k).value);
    }
  }

  lemma SuitesRoundTrip(m: Hello, rest: bytes)
    requires FixedFits(m)
    ensures ParseSuites(m.vers, m.random, m.sessionId, EncodeList(m.cipherSuites, 2, Codes()) + (Prefixed(m.compressionMethods, 1) + rest))
         == Some((Upto(m, 0), rest))
  {
    PowersOf256();
    ReadsPrefixed(Written(m.cipherSuites, Codes()), 2, Prefixed(m.compressionMethods, 1) + rest);
    ElementsOfWritten(m.cipherSuites, Codes());
    ReadsPrefixed(m.compressionMethods, 1, rest);
  }

  lemma FixedSplit(m: Hello, rest: bytes)
    ensures FixedBytes(m) + rest
         == Be(m.vers, 2) + (m.random + (Prefixed(m.sessionId, 1) + (EncodeList(m.cipherSuites, 2, Codes()) + (Prefixed(m.compressionMethods, 1) + rest))))
  {
    var (a, b, c, d, e) := (Be(m.vers, 2), m.random, Prefixed(m.sessionId, 1), EncodeList(m.cipherSuites, 2, Codes()), Prefixed(m.compressionMethods, 1));
    FiveParts(a, b, c, d, e, rest);
  }

  lemma FiveParts(a: bytes, b: bytes, c: bytes, d: bytes, e: bytes, rest: bytes)
    ensures (a + (b + (c + (d + e)))) + rest == a + (b + (c + (d + (e + rest))))
  {
  }

  lemma TakeRandom(random: bytes, tail: bytes)
    requires |random| == 32
    ensures (random + tail)[..32] == random && (random + tail)[32..] == tail
  {
  }

  lemma FixedRoundTrip(m: Hello, rest: bytes)
    requires FixedFits(m)
    ensures ParseFixed(FixedBytes(m) + rest) == Some((Upto(m, 0), rest))
  {
    PowersOf256();
    FixedSplit(m, rest);
    var suites := EncodeList(m.cipherSuites, 2, Codes()) + (Prefixed(m.compressionMethods, 1) + rest);
    SuitesRoundTrip(m, rest);
    ReadsPrefixed(m.sessionId, 1, suites);
    ReadsU16(m.vers, m.random + (Prefixed(m.sessionId, 1) + suites));
    TakeRandom(m.random, Prefixed(m.sessionId, 1) + suites);
  }

  lemma ExtensionsRoundTrip(m: Hello)
    requires Fits(m) && Sane(m)
    ensures ParseBlock(ClientSchema(), Upto(m, 0), ExtensionBlock(ExtensionsOf(m))) == Some(m)
  {
    AllRegular(m);
    FieldsDistinct(m);
    BlockRoundTrip(ClientSchema(), FieldsOf(m), UptoOf(m), FIELDS);
  }

  lemma AllRegular(m: Hello)
    requires Sane(m) && forall k :: 0 <= k < FIELDS ==> FieldFits(Field(m, k))
    ensures forall j :: 0 <= j < FIELDS ==> Regular(ClientSchema(), FieldsOf(m), UptoOf(m), j, FIELDS)
  {
    forall j | 0 <= j < FIELDS
      ensures Regular(ClientSchema(), FieldsOf(m), UptoOf(m), j, FIELDS)
    {
      assert FieldFits(Field(m, j));
      FieldIsRegular(m, j);
    }
  }

  /** Unmarshal recovers every field of a message that fits and is sane, whatever extensions it has. */
  lemma HelloRoundTrip(m: Hello)
    requires Fits(m) && Sane(m)
    ensures Unmarshal(HelloBytes(m)) == Some(m)
  {
    var block := ExtensionBlock(ExtensionsOf(m));
    SkipHeader(TYPE_CLIENT_HELLO, FixedBytes(m) + block);
    FixedRoundTrip(m, block);
    ExtensionsRoundTrip(m);
  }

  lemma AssignKeepsSane(m: Hello, e: Extension)
    requires Sane(m) && ExtensionSane(e)
    ensures Sane(Assign(m, e))
  {
  }

  lemma ParsedIsSane(s: bytes, m: Hello)
    requires Sane(m) && ParseBlock(ClientSchema(), m, s).Some?
    ensures Sane(ParseBlock(ClientSchema(), m, s).value)
  {
    var inv := (seen: set<u16>, m: Hello) => Sane(m);
    forall seen, m, code, body
      ensures KeptBy(ClientSchema(), inv, seen, m, code, body)
    {
      if Sane(m) && DecodeBody(code, body).Some? {
        DecodedIsSane(code, body);
        AssignKeepsSane(m, DecodeBody(code, body).value);
      }
    }
    if s != [] {
      var _ := ParsedKeeps(ClientSchema(), inv, DecodeVector(s, 2).value, {}, m);
    }
  }

  /** Every message unmarshal accepts is sane. */
  lemma UnmarshaledIsSane(data: bytes)
    requires Unmarshal(data).Some?
    ensures Sane(Unmarshal(data).value)
  {
    var (m, rest) := ParseFixed(data[4..]).value;
    BareIsSane(data[4..]);
    ParsedIsSane(rest, m);
  }

  lemma BareIsSane(s: bytes)
    requires ParseFixed(s).Some?
    ensures Sane(ParseFixed(s).value.0)
  {
  }

  /** Marshal followed by unmarshal is the identity on a message exactly when it fits and is sane. */
  lemma RoundTripExactly(m: Hello)
    ensures (Marshal(m).Some? && Unmarshal(Marshal(m).value) == Some(m)) <==> Fits(m) && Sane(m)
  {
    if Fits(m) {
      if Sane(m) {
        HelloRoundTrip(m);
      } else if Unmarshal(HelloBytes(m)).Some? {
        UnmarshaledIsSane(HelloBytes(m));
      }
    }
  }

  /** A block with an extension twice, or with anything after pre_shared_key, is rejected whatever else it holds. */
  lemma MisplacedIsRejected(xs: seq<RawExtension>, m: Hello)
    requires AllValid(xs, RawExtensions()) && !WellPlaced(xs, MustBeLast)
    ensures ParseExtensions(ClientSchema(), Written(xs, RawExtensions()), {}, m) == None
  {
    ElementsOfWritten(xs, RawExtensions());
    AcceptedExactly(ClientSchema(), Written(xs, RawExtensions()), {}, m);
  }
}
