/** handshake_messages.go: the ServerHello message, which is also the HelloRetryRequest. */
module ServerHello {
  import opened Bytes
  import opened Wire
  import opened HelloParts
  import opened Extensions

  const TYPE_SERVER_HELLO: byte := 2

  datatype Common = Common(
    ocspStapling: bool,
    ticketSupported: bool,
    secureRenegotiationSupported: bool,
    secureRenegotiation: bytes,
    alpnProtocol: bytes,
    scts: seq<bytes>,
    supportedPoints: bytes)

  datatype Modern = Modern(
    supportedVersion: u16,
    serverShare: KeyShare,
    selectedIdentityPresent: bool,
    selectedIdentity: u16,
    cookie: bytes,
    selectedGroup: u16)

  datatype Hello = Hello(
    vers: u16,
    random: bytes,
    sessionId: bytes,
    cipherSuite: u16,
    compressionMethod: byte,
    common: Common,
    modern: Modern)

  const NO_SHARE := KeyShare(0, [])
  const NO_COMMON := Common(false, false, false, [], [], [], [])
  const NO_MODERN := Modern(0, NO_SHARE, false, 0, [], 0)

  datatype Extension =
    | Flag(flagCode: u16)
    | Vector(vectorCode: u16, data: bytes)
    | Number(numberCode: u16, number: u16)
    | Protocol(protocol: bytes)
    | Timestamps(scts: seq<bytes>)
    | Share(share: KeyShare)
    | Unknown(unknownCode: u16)

  predicate IsFlag(code: u16) {
    code == EXTENSION_STATUS_REQUEST || code == EXTENSION_SESSION_TICKET
  }

  predicate IsVector(code: u16) {
    code == EXTENSION_RENEGOTIATION_INFO || code == EXTENSION_COOKIE || code == EXTENSION_SUPPORTED_POINTS
  }

  predicate IsNumber(code: u16) {
    code == EXTENSION_SUPPORTED_VERSIONS || code == EXTENSION_PRE_SHARED_KEY
  }

  function Width(code: u16): (w: nat)
    ensures w == 1 || w == 2
  {
    if code == EXTENSION_COOKIE then 2 else 1
  }

  function Code(e: Extension): u16 {
    match e
    case Flag(code) => code
    case Vector(code, _) => code
    case Number(code, _) => code
    case Protocol(_) => EXTENSION_ALPN
    case Timestamps(_) => EXTENSION_SCT
    case Share(_) => EXTENSION_KEY_SHARE
    case Unknown(code) => code
  }

  function EncodeProtocol(protocol: bytes): bytes {
    Prefixed(Prefixed(protocol, 1), 2)
  }

  function Body(e: Extension): bytes {
    match e
    case Flag(_) => []
    case Vector(code, data) => Prefixed(data, Width(code))
    case Number(_, number) => Be(number, 2)
    case Protocol(protocol) => EncodeProtocol(protocol)
    case Timestamps(scts) => EncodeList(scts, 2, Vectors(2))
    case Share(share) => WriteShare(share)
    case Unknown(_) => []
  }

  function DecodeFlag(code: u16, data: bytes): Option<Extension> {
    if data != [] then None else Some(Flag(code))
  }

  function DecodeVectorBody(code: u16, data: bytes): Option<Extension> {
    match DecodeVector(data, Width(code))
    case None => None
    case Some(b) => if b == [] && code != EXTENSION_RENEGOTIATION_INFO then None else Some(Vector(code, b))
  }

  function DecodeNumber(code: u16, data: bytes): Option<Extension> {
    match ReadU16(data)
    case None => None
    case Some((n, rest)) => if rest != [] then None else Some(Number(code, n))
  }

  function DecodeProtocol(data: bytes): Option<Extension> {
    match DecodeVector(data, 2)
    case None => None
    case Some(list) =>
      match DecodeVector(list, 1)
      case None => None
      case Some(protocol) => if protocol == [] then None else Some(Protocol(protocol))
  }

  function DecodeTimestamps(data: bytes): Option<Extension> {
    match DecodeList(data, 2, Vectors(2))
    case None => None
    case Some(scts) => if scts == [] then None else Some(Timestamps(scts))
  }

  /** A key_share holds a group alone in a HelloRetryRequest, a group and a key in a ServerHello. */
  function DecodeShare(data: bytes): Option<Extension> {
    if |data| == 2 then DecodeNumber(EXTENSION_KEY_SHARE, data)
    else
      match ReadU16(data)
      case None => None
      case Some((group, rest)) =>
        match DecodeVector(rest, 2)
        case None => None
        case Some(key) => Some(Share(KeyShare(group, key)))
  }

  type Decoder = bytes -> Option<Extension>

  function DecoderOf(code: u16): Decoder {
    if code == EXTENSION_ALPN then DecodeProtocol
    else if code == EXTENSION_SCT then DecodeTimestamps
    else if code == EXTENSION_KEY_SHARE then DecodeShare
    else if IsFlag(code) then d => DecodeFlag(code, d)
    else if IsVector(code) then d => DecodeVectorBody(code, d)
    else if IsNumber(code) then d => DecodeNumber(code, d)
    else _ => Some(Unknown(code))
  }

  function DecodeBody(code: u16, data: bytes): Option<Extension> {
    DecoderOf(code)(data)
  }

  function AssignCommon(c: Common, e: Extension): Common {
    match e
    case Flag(code) => if code == EXTENSION_STATUS_REQUEST then c.(ocspStapling := true) else c.(ticketSupported := true)
    case Vector(code, data) =>
      if code == EXTENSION_RENEGOTIATION_INFO then c.(secureRenegotiationSupported := true, secureRenegotiation := data)
      else if code == EXTENSION_SUPPORTED_POINTS then c.(supportedPoints := data)
      else c
    case Protocol(protocol) => c.(alpnProtocol := protocol)
    case Timestamps(scts) => c.(scts := scts)
    case _ => c
  }

  function AssignModern(x: Modern, e: Extension): Modern {
    match e
    case Vector(code, data) => if code == EXTENSION_COOKIE then x.(cookie := data) else x
    case Number(code, n) =>
      if code == EXTENSION_SUPPORTED_VERSIONS then x.(supportedVersion := n)
      else if code == EXTENSION_KEY_SHARE then x.(selectedGroup := n)
      else x.(selectedIdentityPresent := true, selectedIdentity := n)
    case Share(share) => x.(serverShare := share)
    case _ => x
  }

  function Assign(m: Hello, e: Extension): Hello {
    m.(common := AssignCommon(m.common, e), modern := AssignModern(m.modern, e))
  }

  predicate Never(code: u16) {
    false
  }

  function ServerSchema(): Schema<Hello, Extension> {
    Schema(RawExtensions(), Code, Body, DecodeBody, Assign, Never)
  }

  const FIELDS := 11

  function Present(e: Extension, present: bool): Option<Extension> {
    if present then Some(e) else None
  }

  /** The optional extensions in the order marshal writes them. */
  function Field(m: Hello, k: nat): Option<Extension> {
    var (c, x) := (m.common, m.modern);
    match k
    case 0 => Present(Flag(EXTENSION_STATUS_REQUEST), c.ocspStapling)
    case 1 => Present(Flag(EXTENSION_SESSION_TICKET), c.ticketSupported)
    case 2 => Present(Vector(EXTENSION_RENEGOTIATION_INFO, c.secureRenegotiation), c.secureRenegotiationSupported)
    case 3 => Present(Protocol(c.alpnProtocol), c.alpnProtocol != [])
    case 4 => Present(Timestamps(c.scts), c.scts != [])
    case 5 => Present(Number(EXTENSION_SUPPORTED_VERSIONS, x.supportedVersion), x.supportedVersion != 0)
    case 6 => Present(Share(x.serverShare), x.serverShare.group != 0)
    case 7 => Present(Number(EXTENSION_PRE_SHARED_KEY, x.selectedIdentity), x.selectedIdentityPresent)
    case 8 => Present(Vector(EXTENSION_COOKIE, x.cookie), x.cookie != [])
    case 9 => Present(Number(EXTENSION_KEY_SHARE, x.selectedGroup), x.selectedGroup != 0)
    case _ => Present(Vector(EXTENSION_SUPPORTED_POINTS, c.supportedPoints), c.supportedPoints != [])
  }

  function FieldsOf(m: Hello): Fields<Extension> {
    (k: nat) => Field(m, k)
  }

  function ExtensionsOf(m: Hello): bytes {
    ExtensionBytes(ServerSchema(), FieldsOf(m), 0, FIELDS)
  }

  function FixedBytes(m: Hello): bytes {
    Be(m.vers, 2) + (m.random + (Prefixed(m.sessionId, 1) + (Be(m.cipherSuite, 2) + [m.compressionMethod])))
  }

  function HelloBytes(m: Hello): bytes {
    [TYPE_SERVER_HELLO] + Prefixed(FixedBytes(m) + ExtensionBlock(ExtensionsOf(m)), 3)
  }

  predicate ExtensionFits(e: Extension) {
    && |Body(e)| < 0x1_0000
    && match e
       case Vector(code, data) => |data| < Pow256(Width(code))
       case Protocol(protocol) => |protocol| < 0x100
       case _ => true
  }

  predicate FieldFits(f: Option<Extension>) {
    f.Some? ==> ExtensionFits(f.value)
  }

  /** When marshal reports no error. */
  predicate Fits(m: Hello) {
    && |m.random| == 32 && |m.sessionId| < 0x100 && |ExtensionsOf(m)| < 0x1_0000
    && forall k :: 0 <= k < FIELDS ==> FieldFits(Field(m, k))
  }

  function Marshal(m: Hello): Option<bytes> {
    if Fits(m) then Some(HelloBytes(m)) else None
  }

  function ParseFixed(s: bytes): Option<(Hello, bytes)> {
    match ReadU16(s)
    case None => None
    case Some((vers, tail)) =>
      if |tail| < 32 then None
      else
        match ReadPrefixed(tail[32..], 1)
        case None => None
        case Some((sessionId, rest)) =>
          match ReadU16(rest)
          case None => None
          case Some((suite, last)) =>
            if last == [] then None
            else Some((Hello(vers, tail[..32], sessionId, suite, last[0], NO_COMMON, NO_MODERN), last[1..]))
  }

  function Unmarshal(data: bytes): Option<Hello> {
    if |data| < 4 then None
    else
      match ParseFixed(data[4..])
      case None => None
      case Some((m, rest)) => ParseBlock(ServerSchema(), m, rest)
  }

  /** Nothing set that its extension would not carry, and one kind of key_share only. */
  predicate Sane(m: Hello) {
    && (!m.common.secureRenegotiationSupported ==> m.common.secureRenegotiation == [])
    && NoneEmpty(m.common.scts) && ShareSane(m.modern)
    && (!m.modern.selectedIdentityPresent ==> m.modern.selectedIdentity == 0)
  }

  predicate ShareSane(x: Modern) {
    && (x.serverShare.group == 0 ==> x.serverShare.data == [])
    && (x.selectedGroup != 0 ==> x.serverShare == NO_SHARE)
  }

  function UptoCommon(c: Common, k: nat): Common {
    Common(
      k > 0 && c.ocspStapling,
      k > 1 && c.ticketSupported,
      k > 2 && c.secureRenegotiationSupported,
      if k > 2 then c.secureRenegotiation else [],
      if k > 3 then c.alpnProtocol else [],
      if k > 4 then c.scts else [],
      if k > 10 then c.supportedPoints else [])
  }

  function UptoModern(x: Modern, k: nat): Modern {
    Modern(
      if k > 5 then x.supportedVersion else 0,
      if k > 6 then x.serverShare else NO_SHARE,
      k > 7 && x.selectedIdentityPresent,
      if k > 7 then x.selectedIdentity else 0,
      if k > 8 then x.cookie else [],
      if k > 9 then x.selectedGroup else 0)
  }

  function Upto(m: Hello, k: nat): Hello {
    m.(common := UptoCommon(m.common, k), modern := UptoModern(m.modern, k))
  }

  function UptoOf(m: Hello): nat -> Hello {
    (k: nat) => Upto(m, k)
  }

  lemma FieldAssigned(m: Hello, k: nat)
    requires k < FIELDS && Sane(m)
    ensures Field(m, k).None? ==> Upto(m, k + 1) == Upto(m, k)
    ensures Field(m, k).Some? ==> Upto(m, k + 1) == Assign(Upto(m, k), Field(m, k).value)
  {
  }

  predicate ExtensionSane(e: Extension) {
    match e
    case Flag(code) => IsFlag(code)
    case Vector(code, data) => IsVector(code) && (data == [] ==> code == EXTENSION_RENEGOTIATION_INFO)
    case Number(code, _) => IsNumber(code) || code == EXTENSION_KEY_SHARE
    case Protocol(protocol) => protocol != []
    case Timestamps(scts) => scts != [] && NoneEmpty(scts)
    case Share(_) => true
    case Unknown(_) => false
  }

  lemma FieldIsSane(m: Hello, k: nat)
    requires k < FIELDS && Sane(m) && Field(m, k).Some?
    ensures ExtensionSane(Field(m, k).value)
  {
  }

  lemma NumberRoundTrip(code: u16, n: u16)
    ensures |Be(n, 2)| == 2 && DecodeNumber(code, Be(n, 2)) == Some(Number(code, n))
  {
    ReadsU16(n, []);
    assert Be(n, 2) + [] == Be(n, 2);
  }

  lemma ProtocolRoundTrip(protocol: bytes)
    requires 0 < |protocol| < 0x100
    ensures DecodeProtocol(EncodeProtocol(protocol)) == Some(Protocol(protocol))
  {
    PowersOf256();
    VectorRoundTrip(Prefixed(protocol, 1), 2);
    VectorRoundTrip(protocol, 1);
  }

  lemma TimestampsRoundTrip(scts: seq<bytes>)
    requires scts != [] && NoneEmpty(scts) && |EncodeList(scts, 2, Vectors(2))| < 0x1_0000
    ensures DecodeTimestamps(EncodeList(scts, 2, Vectors(2))) == Some(Timestamps(scts))
  {
    PowersOf256();
    TimestampsFit(scts);
    ListRoundTrip(scts, 2, Vectors(2));
  }

  lemma {:induction false} TimestampsFit(scts: seq<bytes>)
    requires NoneEmpty(scts) && |Written(scts, Vectors(2))| < 0x1_0000
    ensures AllValid(scts, Vectors(2))
  {
    PowersOf256();
    if scts != [] {
      TimestampsFit(scts[1..]);
      assert |Prefixed(scts[0], 2)| >= |scts[0]|;
    }
  }

  lemma ShareRoundTrip(share: KeyShare)
    requires |WriteShare(share)| < 0x1_0000
    ensures DecodeShare(WriteShare(share)) == Some(Share(share))
  {
    PowersOf256();
    ReadsU16(share.group, Prefixed(share.data, 2));
    VectorRoundTrip(share.data, 2);
  }

  lemma VectorBodyRoundTrip(code: u16, data: bytes)
    requires |data| < Pow256(Width(code)) && (data == [] ==> code == EXTENSION_RENEGOTIATION_INFO)
    ensures DecodeVectorBody(code, Prefixed(data, Width(code))) == Some(Vector(code, data))
  {
    VectorRoundTrip(data, Width(code));
  }

  lemma BodyRoundTrip(e: Extension)
    requires ExtensionFits(e) && ExtensionSane(e)
    ensures RoundTrips(ServerSchema(), e)
  {
    PowersOf256();
    match e
    case Flag(_) =>
    case Vector(code, data) => VectorBodyRoundTrip(code, data);
    case Number(code, n) => NumberRoundTrip(code, n);
    case Protocol(protocol) => ProtocolRoundTrip(protocol);
    case Timestamps(scts) => TimestampsRoundTrip(scts);
    case Share(share) => ShareRoundTrip(share);
  }

  lemma FieldIsRegular(m: Hello, k: nat)
    requires k < FIELDS && Sane(m) && FieldFits(Field(m, k))
    ensures Regular(ServerSchema(), FieldsOf(m), UptoOf(m), k, FIELDS)
  {
    FieldAssigned(m, k);
    if Field(m, k).Some? {
      FieldIsSane(m, k);
      BodyRoundTrip(Field(m, k).value);
    }
  }

  function FieldCode(k: nat): u16 {
    match k
    case 0 => EXTENSION_STATUS_REQUEST
    case 1 => EXTENSION_SESSION_TICKET
    case 2 => EXTENSION_RENEGOTIATION_INFO
    case 3 => EXTENSION_ALPN
    case 4 => EXTENSION_SCT
    case 5 => EXTENSION_SUPPORTED_VERSIONS
    case 6 => EXTENSION_KEY_SHARE
    case 7 => EXTENSION_PRE_SHARED_KEY
    case 8 => EXTENSION_COOKIE
    case 9 => EXTENSION_KEY_SHARE
    case _ => EXTENSION_SUPPORTED_POINTS
  }

  lemma FieldHasCode(m: Hello, k: nat)
    requires k < FIELDS && Field(m, k).Some?
    ensures Code(Field(m, k).value) == FieldCode(k)
  {
  }

  lemma FieldCodesDiffer(j: nat, k: nat)
    requires j < k < FIELDS && !(j == 6 && k == 9)
    ensures FieldCode(j) != FieldCode(k)
  {
  }

  lemma FieldsDistinct(m: Hello)
    requires Sane(m)
    ensures Distinct(ServerSchema(), FieldsOf(m), FIELDS)
  {
    forall j, k | 0 <= j < k < FIELDS
      ensures Apart(ServerSchema(), FieldsOf(m)(j), FieldsOf(m)(k))
    {
      if Field(m, j).Some? && Field(m, k).Some? {
        FieldHasCode(m, j);
        FieldHasCode(m, k);
        FieldCodesDiffer(j, k);
      }
    }
  }

  lemma ExtensionsRoundTrip(m: Hello)
    requires Fits(m) && Sane(m)
    ensures ParseBlock(ServerSchema(), Upto(m, 0), ExtensionBlock(ExtensionsOf(m))) == Some(m)
  {
    AllRegular(m);
    FieldsDistinct(m);
    BlockRoundTrip(ServerSchema(), FieldsOf(m), UptoOf(m), FIELDS);
  }

  lemma AllRegular(m: Hello)
    requires Sane(m) && forall k :: 0 <= k < FIELDS ==> FieldFits(Field(m, k))
    ensures forall j :: 0 <= j < FIELDS ==> Regular(ServerSchema(), FieldsOf(m), UptoOf(m), j, FIELDS)
  {
    forall j | 0 <= j < FIELDS
      ensures Regular(ServerSchema(), FieldsOf(m), UptoOf(m), j, FIELDS)
    {
      assert FieldFits(Field(m, j));
      FieldIsRegular(m, j);
    }
  }

  lemma FixedParts(a: bytes, b: bytes, c: bytes, d: bytes, e: bytes, rest: bytes)
    requires |b| == 32
    ensures (a + (b + (c + (d + e)))) + rest == a + (b + (c + (d + (e + rest))))
    ensures var tail := b + (c + (d + (e + rest))); tail[..32] == b && tail[32..] == c + (d + (e + rest))
  {
  }

  lemma FixedRoundTrip(m: Hello, rest: bytes)
    requires |m.random| == 32 && |m.sessionId| < 0x100
    ensures ParseFixed(FixedBytes(m) + rest) == Some((Upto(m, 0), rest))
  {
    PowersOf256();
    var last := [m.compressionMethod] + rest;
    FixedParts(Be(m.vers, 2), m.random, Prefixed(m.sessionId, 1), Be(m.cipherSuite, 2), [m.compressionMethod], rest);
    ReadsU16(m.vers, m.random + (Prefixed(m.sessionId, 1) + (Be(m.cipherSuite, 2) + last)));
    ReadsPrefixed(m.sessionId, 1, Be(m.cipherSuite, 2) + last);
    ReadsU16(m.cipherSuite, last);
    assert last[0] == m.compressionMethod && last[1..] == rest;
  }

  /** Unmarshal recovers every field of a message that fits and is sane, whatever extensions it has. */
  lemma HelloRoundTrip(m: Hello)
    requires Fits(m) && Sane(m)
    ensures Unmarshal(HelloBytes(m)) == Some(m)
  {
    var block := ExtensionBlock(ExtensionsOf(m));
    SkipHeader(TYPE_SERVER_HELLO, FixedBytes(m) + block);
    FixedRoundTrip(m, block);
    ExtensionsRoundTrip(m);
  }

  /** What holds of a message while its extensions are read. */
  ghost predicate Read(seen: set<u16>, m: Hello) {
    && (!m.common.secureRenegotiationSupported ==> m.common.secureRenegotiation == [])
    && NoneEmpty(m.common.scts) && (!m.modern.selectedIdentityPresent ==> m.modern.selectedIdentity == 0)
    && (EXTENSION_KEY_SHARE !in seen ==> m.modern.serverShare == NO_SHARE && m.modern.selectedGroup == 0)
    && (m.modern.selectedGroup != 0 ==> m.modern.serverShare == NO_SHARE)
  }

  lemma AssignKeepsRead(seen: set<u16>, m: Hello, e: Extension)
    requires Read(seen, m) && Code(e) !in seen && (e.Timestamps? ==> NoneEmpty(e.scts))
    ensures Read(seen + {Code(e)}, Assign(m, e))
  {
  }

  lemma DecodedShape(code: u16, body: bytes)
    requires DecodeBody(code, body).Some?
    ensures var e := DecodeBody(code, body).value; Code(e) == code && (e.Timestamps? ==> NoneEmpty(e.scts))
  {
    if code == EXTENSION_SCT {
      ListDecoded(body, 2, Vectors(2));
    }
  }

  lemma ParsedIsRead(s: bytes, m: Hello) returns (seen: set<u16>)
    requires Read({}, m) && ParseBlock(ServerSchema(), m, s).Some?
    ensures Read(seen, ParseBlock(ServerSchema(), m, s).value)
  {
    var inv := (seen: set<u16>, m: Hello) => Read(seen, m);
    forall seen, m, code, body
      ensures KeptBy(ServerSchema(), inv, seen, m, code, body)
    {
      if Read(seen, m) && code !in seen && DecodeBody(code, body).Some? {
        DecodedShape(code, body);
        AssignKeepsRead(seen, m, DecodeBody(code, body).value);
      }
    }
    if s == [] {
      return {};
    }
    seen := ParsedKeeps(ServerSchema(), inv, DecodeVector(s, 2).value, {}, m);
  }

  lemma UnmarshaledIsRead(data: bytes) returns (seen: set<u16>)
    requires Unmarshal(data).Some?
    ensures Read(seen, Unmarshal(data).value)
  {
    var (m, rest) := ParseFixed(data[4..]).value;
    BareIsRead(data[4..]);
    seen := ParsedIsRead(rest, m);
  }

  lemma BareIsRead(s: bytes)
    requires ParseFixed(s).Some?
    ensures Read({}, ParseFixed(s).value.0)
  {
  }

  function WithoutShare(m: Hello): Hello {
    m.(modern := m.modern.(serverShare := NO_SHARE))
  }

  /** A key under group 0 is not written. */
  lemma GroupZeroIsDropped(m: Hello)
    requires m.modern.serverShare.group == 0 && Fits(m)
    ensures Fits(WithoutShare(m)) && HelloBytes(WithoutShare(m)) == HelloBytes(m)
  {
    GroupZeroSameBytes(m);
    forall k | 0 <= k < FIELDS
      ensures FieldFits(Field(WithoutShare(m), k))
    {
      assert FieldFits(Field(m, k));
      GroupZeroHasNoField(m, k);
    }
  }

  lemma GroupZeroSameBytes(m: Hello)
    requires m.modern.serverShare.group == 0
    ensures ExtensionsOf(WithoutShare(m)) == ExtensionsOf(m)
  {
    var m1 := WithoutShare(m);
    forall k | 0 <= k < FIELDS
      ensures FieldsOf(m)(k) == FieldsOf(m1)(k)
    {
      GroupZeroHasNoField(m, k);
    }
    SameFieldsSameBytes(ServerSchema(), FieldsOf(m), FieldsOf(m1), 0, FIELDS);
  }

  lemma GroupZeroHasNoField(m: Hello, k: nat)
    requires m.modern.serverShare.group == 0
    ensures Field(WithoutShare(m), k) == Field(m, k)
  {
  }

  /** Marshal followed by unmarshal is the identity on a message exactly when it fits and is sane. */
  lemma RoundTripExactly(m: Hello)
    ensures (Marshal(m).Some? && Unmarshal(Marshal(m).value) == Some(m)) <==> Fits(m) && Sane(m)
  {
    if Fits(m) && Sane(m) {
      HelloRoundTrip(m);
    } else if Fits(m) && Unmarshal(HelloBytes(m)) == Some(m) {
      var seen := UnmarshaledIsRead(HelloBytes(m));
      GroupZeroIsDropped(m);
      HelloRoundTrip(WithoutShare(m));
    }
  }

  /** One round of the extension loop; only the timestamps need a loop of their own. */
  method ReadExtension(code: u16, body: bytes) returns (r: Option<Extension>)
    ensures r == DecodeBody(code, body)
  {
    if code == EXTENSION_SCT {
      var scts := ReadList(body, 2, Vectors(2));
      return if scts.None? || scts.value == [] then None else Some(Timestamps(scts.value));
    }
    return DecodeBody(code, body);
  }

  /** The extension loop of unmarshal. */
  method ReadExtensions(block: bytes, start: Hello) returns (r: Option<Hello>)
    ensures r == ParseExtensions(ServerSchema(), block, {}, start)
  {
    var left: bytes, seen: set<u16>, m := block, {}, start;
    while left != []
      invariant ParseExtensions(ServerSchema(), left, seen, m) == ParseExtensions(ServerSchema(), block, {}, start)
      decreases |left|
    {
      var raw := ReadRaw(left);
      if raw.None? {
        return None;
      }
      var (x, rest) := raw.value;
      if x.code in seen {
        return None;
      }
      var e := ReadExtension(x.code, x.body);
      if e.None? {
        return None;
      }
      left, seen, m := rest, seen + {x.code}, Assign(m, e.value);
    }
    return Some(m);
  }

  method ReadServerHello(data: bytes) returns (r: Option<Hello>)
    ensures r == Unmarshal(data)
    ensures forall m :: Fits(m) && Sane(m) && data == HelloBytes(m) ==> r == Some(m)
  {
    forall m | Fits(m) && Sane(m) && data == HelloBytes(m)
      ensures Unmarshal(data) == Some(m)
    {
      HelloRoundTrip(m);
    }
    if |data| < 4 {
      return None;
    }
    var fixed := ParseFixed(data[4..]);
    if fixed.None? {
      return None;
    }
    var (m, rest) := fixed.value;
    if rest == [] {
      return Some(m);
    }
    var block := DecodeVector(rest, 2);
    if block.None? {
      return None;
    }
    r := ReadExtensions(block.value, m);
  }
}
