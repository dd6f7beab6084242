/** handshake_messages.go: the ClientHello message, its extensions, and how each is written and read. */
module ClientHello {
  import opened Bytes
  import opened Wire
  import opened HelloParts

  const SCSV_RENEGOTIATION: u16 := 0x00ff
  const TYPE_CLIENT_HELLO: byte := 1
  const DOT: byte := 0x2e

  datatype PskIdentity = PskIdentity(identity: bytes, obfuscatedTicketAge: u32)

  /** Extension fields every version has; Go strings are octet strings here. */
  datatype Common = Common(
    serverName: bytes,
    ocspStapling: bool,
    supportedCurves: seq<u16>,
    supportedPoints: bytes,
    ticketSupported: bool,
    sessionTicket: bytes,
    signatureAlgorithms: seq<u16>,
    signatureAlgorithmsCert: seq<u16>,
    secureRenegotiationSupported: bool,
    secureRenegotiation: bytes,
    alpnProtocols: seq<bytes>,
    scts: bool)

  /** Extension fields of TLS 1.3. */
  datatype Modern = Modern(
    supportedVersions: seq<u16>,
    cookie: bytes,
    keyShares: seq<KeyShare>,
    earlyData: bool,
    pskModes: bytes,
    pskIdentities: seq<PskIdentity>,
    pskBinders: seq<bytes>)

  datatype Hello = Hello(
    vers: u16,
    random: bytes,
    sessionId: bytes,
    cipherSuites: seq<u16>,
    compressionMethods: bytes,
    common: Common,
    modern: Modern)

  /** One extension with its content; lists of codes and plain vectors share a shape. */
  datatype Extension =
    | HostName(name: bytes)
    | StatusRequest(ocsp: bool)
    | CodeList(listCode: u16, codes: seq<u16>)
    | Vector(vectorCode: u16, data: bytes)
    | Flag(flagCode: u16)
    | SessionTicket(ticket: bytes)
    | Alpn(protocols: seq<bytes>)
    | KeyShares(shares: seq<KeyShare>)
    | PreSharedKey(identities: seq<PskIdentity>, binders: seq<bytes>)
    | Unknown(unknownCode: u16)

  predicate IsCodeList(code: u16) {
    || code == EXTENSION_SUPPORTED_CURVES || code == EXTENSION_SIGNATURE_ALGORITHMS
    || code == EXTENSION_SIGNATURE_ALGORITHMS_CERT || code == EXTENSION_SUPPORTED_VERSIONS
  }

  predicate IsVector(code: u16) {
    || code == EXTENSION_SUPPORTED_POINTS || code == EXTENSION_RENEGOTIATION_INFO
    || code == EXTENSION_COOKIE || code == EXTENSION_PSK_MODES
  }

  predicate IsFlag(code: u16) {
    code == EXTENSION_SCT || code == EXTENSION_EARLY_DATA
  }

  /** Vectors that are rejected when empty. */
  predicate MustBeFilled(code: u16) {
    code == EXTENSION_SUPPORTED_POINTS || code == EXTENSION_COOKIE
  }

  /** The width of the length prefix of a list or vector. */
  function Width(code: u16): (w: nat)
    ensures w == 1 || w == 2
  {
    if code == EXTENSION_SUPPORTED_VERSIONS || (IsVector(code) && code != EXTENSION_COOKIE) then 1 else 2
  }

  function Code(e: Extension): u16 {
    match e
    case HostName(_) => EXTENSION_SERVER_NAME
    case StatusRequest(_) => EXTENSION_STATUS_REQUEST
    case CodeList(code, _) => code
    case Vector(code, _) => code
    case Flag(code) => code
    case SessionTicket(_) => EXTENSION_SESSION_TICKET
    case Alpn(_) => EXTENSION_ALPN
    case KeyShares(_) => EXTENSION_KEY_SHARE
    case PreSharedKey(_, _) => EXTENSION_PRE_SHARED_KEY
    case Unknown(code) => code
  }

  predicate IdentityValid(k: PskIdentity) {
    NonEmptyFits(k.identity, 2)
  }

  function WriteIdentity(k: PskIdentity): bytes {
    Prefixed(k.identity, 2) + Be(k.obfuscatedTicketAge, 4)
  }

  function ReadIdentity(s: bytes): Option<(PskIdentity, bytes)> {
    match ReadNonEmpty(s, 2)
    case None => None
    case Some((identity, tail)) =>
      match ReadU32(tail)
      case None => None
      case Some((age, rest)) => Some((PskIdentity(identity, age), rest))
  }

  function Identities(): ItemFormat<PskIdentity> {
    IdentitiesLawful();
    Format(IdentityValid, WriteIdentity, ReadIdentity)
  }

  lemma ReadsIdentity(x: PskIdentity, rest: bytes)
    requires NonEmptyFits(x.identity, 2)
    ensures |WriteIdentity(x)| > 0 && ReadIdentity(WriteIdentity(x) + rest) == Some((x, rest))
  {
    var age := Be(x.obfuscatedTicketAge, 4);
    PowersOf256();
    ReadsUint(x.obfuscatedTicketAge, 4, rest);
    ReadsPrefixed(x.identity, 2, age + rest);
    assert WriteIdentity(x) + rest == Prefixed(x.identity, 2) + (age + rest);
  }

  lemma IdentityRead(s: bytes)
    requires ReadIdentity(s).Some?
    ensures var (x, rest) := ReadIdentity(s).value; NonEmptyFits(x.identity, 2) && WriteIdentity(x) + rest == s
  {
    PrefixedRead(s, 2);
    UintRead(ReadNonEmpty(s, 2).value.1, 4);
    var (x, rest) := ReadIdentity(s).value;
    assert WriteIdentity(x) + rest == Prefixed(x.identity, 2) + (Be(x.obfuscatedTicketAge, 4) + rest);
  }

  lemma IdentitiesLawful()
    ensures Lawful(Format(IdentityValid, WriteIdentity, ReadIdentity))
  {
    var f := Format(IdentityValid, WriteIdentity, ReadIdentity);
    forall x: PskIdentity, rest
      ensures ReadsBack(f, x, rest)
    {
      if f.valid(x) {
        ReadsIdentity(x, rest);
      }
    }
    forall s
      ensures ReadsOnlyWritten(f, s)
    {
      if f.read(s).Some? {
        IdentityRead(s);
      }
    }
  }

  function EncodeHostName(name: bytes): bytes {
    Prefixed([0] + Prefixed(name, 2), 2)
  }

  function EncodeStatusRequest(ocsp: bool): bytes {
    [if ocsp then 1 else 0] + Be(0, 2) + Be(0, 2)
  }

  function EncodePreSharedKey(identities: seq<PskIdentity>, binders: seq<bytes>): bytes {
    EncodeList(identities, 2, Identities()) + EncodeList(binders, 2, Vectors(1))
  }

  /** The body of an extension, without its code and length. */
  function Body(e: Extension): bytes {
    match e
    case HostName(name) => EncodeHostName(name)
    case StatusRequest(ocsp) => EncodeStatusRequest(ocsp)
    case CodeList(code, codes) => EncodeList(codes, Width(code), Codes())
    case Vector(code, data) => Prefixed(data, Width(code))
    case Flag(_) => []
    case SessionTicket(ticket) => ticket
    case Alpn(protocols) => EncodeList(protocols, 2, Vectors(1))
    case KeyShares(shares) => EncodeList(shares, 2, Shares())
    case PreSharedKey(identities, binders) => EncodePreSharedKey(identities, binders)
    case Unknown(_) => []
  }

  /** The host name of a server_name list, given the name found so far. */
  function FindHostName(list: bytes, name: bytes): Option<bytes>
    decreases |list|
  {
    if list == [] then Some(name)
    else
      match ReadNonEmpty(list[1..], 2)
      case None => None
      case Some((host, rest)) =>
        if list[0] != 0 then FindHostName(rest, name)
        else if name != [] || host[|host| - 1] == DOT then None
        else FindHostName(rest, host)
  }

  /** The loop over the server_name list. */
  method ReadHostName(list: bytes) returns (r: Option<bytes>)
    ensures r == FindHostName(list, [])
  {
    var left: bytes, name: bytes := list, [];
    while left != []
      invariant FindHostName(left, name) == FindHostName(list, [])
      decreases |left|
    {
      match ReadNonEmpty(left[1..], 2) {
        case None => return None;
        case Some((host, rest)) =>
          if left[0] == 0 {
            if name != [] || host[|host| - 1] == DOT {
              return None;
            }
            name := host;
          }
          left := rest;
      }
    }
    return Some(name);
  }

  function DecodeHostName(data: bytes): Option<Extension> {
    match DecodeVector(data, 2)
    case None => None
    case Some(list) =>
      if list == [] then None
      else
        match FindHostName(list, [])
        case None => None
        case Some(name) => Some(HostName(name))
  }

  function DecodeStatusRequest(data: bytes): Option<Extension> {
    if data == [] then None
    else
      match ReadPrefixed(data[1..], 2)
      case None => None
      case Some((_, tail)) =>
        match ReadPrefixed(tail, 2)
        case None => None
        case Some((_, rest)) => if rest != [] then None else Some(StatusRequest(data[0] == 1))
  }

  function DecodePreSharedKey(data: bytes): Option<Extension> {
    match ReadPrefixed(data, 2)
    case None => None
    case Some((list, rest)) =>
      match (Elements(list, Identities()), DecodeList(rest, 2, Vectors(1)))
      case (Some(identities), Some(binders)) =>
        if identities == [] || binders == [] then None else Some(PreSharedKey(identities, binders))
      case _ => None
  }

  function DecodeCodes(code: u16, data: bytes): Option<Extension> {
    match DecodeList(data, Width(code), Codes())
    case None => None
    case Some(codes) => if codes == [] then None else Some(CodeList(code, codes))
  }

  function DecodeVectorBody(code: u16, data: bytes): Option<Extension> {
    match DecodeVector(data, Width(code))
    case None => None
    case Some(b) => if b == [] && MustBeFilled(code) then None else Some(Vector(code, b))
  }

  function DecodeFlag(code: u16, data: bytes): Option<Extension> {
    if data != [] then None else Some(Flag(code))
  }

  function DecodeAlpn(data: bytes): Option<Extension> {
    match DecodeList(data, 2, Vectors(1))
    case None => None
    case Some(protocols) => if protocols == [] then None else Some(Alpn(protocols))
  }

  function DecodeShares(data: bytes): Option<Extension> {
    match DecodeList(data, 2, Shares())
    case None => None
    case Some(shares) => Some(KeyShares(shares))
  }

  type Decoder = bytes -> Option<Extension>

  /** The switch of the extension loop: how a body is read; None for a malformed one. */
  function DecoderOf(code: u16): Decoder {
    if code == EXTENSION_SERVER_NAME then DecodeHostName
    else if code == EXTENSION_STATUS_REQUEST then DecodeStatusRequest
    else if code == EXTENSION_SESSION_TICKET then d => Some(SessionTicket(d))
    else if code == EXTENSION_ALPN then DecodeAlpn
    else if code == EXTENSION_KEY_SHARE then DecodeShares
    else if code == EXTENSION_PRE_SHARED_KEY then DecodePreSharedKey
    else if IsCodeList(code) then d => DecodeCodes(code, d)
    else if IsVector(code) then d => DecodeVectorBody(code, d)
    else if IsFlag(code) then d => DecodeFlag(code, d)
    else _ => Some(Unknown(code))
  }

  function DecodeBody(code: u16, data: bytes): Option<Extension> {
    DecoderOf(code)(data)
  }

  predicate AllShort(vs: seq<bytes>) {
    forall i :: 0 <= i < |vs| ==> |vs[i]| < 0x100
  }

  /** What the builder's length prefixes can hold. */
  predicate ExtensionFits(e: Extension) {
    && |Body(e)| < 0x1_0000
    && match e
       case CodeList(code, codes) => |Written(codes, Codes())| < Pow256(Width(code))
       case Vector(code, data) => |data| < Pow256(Width(code))
       case Alpn(protocols) => AllShort(protocols)
       case PreSharedKey(_, binders) => AllShort(binders)
       case _ => true
  }

  /** What the parser never yields otherwise. */
  predicate ExtensionSane(e: Extension) {
    match e
    case HostName(name) => HostSane(name)
    case CodeList(code, _) => IsCodeList(code)
    case Vector(code, _) => IsVector(code)
    case Flag(code) => IsFlag(code)
    case Alpn(protocols) => NoneEmpty(protocols)
    case KeyShares(shares) => SharesSane(shares)
    case PreSharedKey(identities, binders) => PskSane(identities, binders)
    case _ => true
  }

  predicate HostSane(name: bytes) {
    name != [] ==> name[|name| - 1] != DOT
  }

  predicate SharesSane(shares: seq<KeyShare>) {
    forall i :: 0 <= i < |shares| ==> shares[i].data != []
  }

  predicate PskSane(identities: seq<PskIdentity>, binders: seq<bytes>) {
    && (identities == [] <==> binders == [])
    && NoneEmpty(binders) && forall i :: 0 <= i < |identities| ==> identities[i].identity != []
  }

  /** Extensions the marshaler writes: only those with something to say. */
  predicate Emitted(e: Extension) {
    match e
    case HostName(name) => name != []
    case StatusRequest(ocsp) => ocsp
    case CodeList(_, codes) => codes != []
    case Vector(code, data) => MustBeFilled(code) ==> data != []
    case Alpn(protocols) => protocols != []
    case PreSharedKey(identities, _) => identities != []
    case Unknown(_) => false
    case _ => true
  }

  lemma HostNameRoundTrip(name: bytes)
    requires name != [] && HostSane(name) && |EncodeHostName(name)| < 0x1_0000
    ensures DecodeHostName(EncodeHostName(name)) == Some(HostName(name))
  {
    var list := [0] + Prefixed(name, 2);
    PowersOf256();
    VectorRoundTrip(list, 2);
    OneHostName(name);
  }

  lemma OneHostName(name: bytes)
    requires name != [] && HostSane(name) && |name| < Pow256(2)
    ensures FindHostName([0] + Prefixed(name, 2), []) == Some(name)
  {
    var list := [0] + Prefixed(name, 2);
    ReadsPrefixed(name, 2, []);
    assert list[1..] == Prefixed(name, 2) + [];
    assert FindHostName([], name) == Some(name);
  }

  lemma StatusRequestRoundTrip()
    ensures DecodeStatusRequest(EncodeStatusRequest(true)) == Some(StatusRequest(true))
  {
    var data := EncodeStatusRequest(true);
    PowersOf256();
    ReadsPrefixed([], 2, Prefixed([], 2));
    ReadsPrefixed([], 2, []);
    assert data[1..] == Prefixed([], 2) + Prefixed([], 2);
    assert Prefixed([], 2) + [] == Prefixed([], 2);
  }

  lemma PreSharedKeyRoundTrip(identities: seq<PskIdentity>, binders: seq<bytes>)
    requires PskSane(identities, binders) && AllShort(binders) && identities != []
    requires |EncodePreSharedKey(identities, binders)| < 0x1_0000
    ensures DecodePreSharedKey(EncodePreSharedKey(identities, binders)) == Some(PreSharedKey(identities, binders))
  {
    PowersOf256();
    IdentitiesFit(identities);
    ListRoundTrip(binders, 2, Vectors(1));
    ElementsOfWritten(identities, Identities());
    ReadsPrefixed(Written(identities, Identities()), 2, EncodeList(binders, 2, Vectors(1)));
  }

  /** Items are no longer than the list they are in. */
  lemma {:induction false} IdentitiesFit(identities: seq<PskIdentity>)
    requires |Written(identities, Identities())| < 0x1_0000
    requires forall i :: 0 <= i < |identities| ==> identities[i].identity != []
    ensures AllValid(identities, Identities())
  {
    PowersOf256();
    if identities != [] {
      IdentitiesFit(identities[1..]);
      assert |WriteIdentity(identities[0])| >= |identities[0].identity|;
    }
  }

  lemma {:induction false} SharesFit(shares: seq<KeyShare>)
    requires |Written(shares, Shares())| < 0x1_0000 && SharesSane(shares)
    ensures AllValid(shares, Shares())
  {
    PowersOf256();
    if shares != [] {
      SharesFit(shares[1..]);
      assert |WriteShare(shares[0])| >= |shares[0].data|;
    }
  }

  lemma CodesRoundTrip(code: u16, codes: seq<u16>)
    requires codes != [] && |Written(codes, Codes())| < Pow256(Width(code))
    ensures DecodeCodes(code, EncodeList(codes, Width(code), Codes())) == Some(CodeList(code, codes))
  {
    ListRoundTrip(codes, Width(code), Codes());
  }

  lemma VectorBodyRoundTrip(code: u16, data: bytes)
    requires |data| < Pow256(Width(code)) && (MustBeFilled(code) ==> data != [])
    ensures DecodeVectorBody(code, Prefixed(data, Width(code))) == Some(Vector(code, data))
  {
    VectorRoundTrip(data, Width(code));
  }

  lemma AlpnRoundTrip(protocols: seq<bytes>)
    requires protocols != [] && NoneEmpty(protocols) && AllShort(protocols)
    requires |EncodeList(protocols, 2, Vectors(1))| < 0x1_0000
    ensures DecodeAlpn(EncodeList(protocols, 2, Vectors(1))) == Some(Alpn(protocols))
  {
    PowersOf256();
    ListRoundTrip(protocols, 2, Vectors(1));
  }

  lemma KeySharesRoundTrip(shares: seq<KeyShare>)
    requires SharesSane(shares) && |EncodeList(shares, 2, Shares())| < 0x1_0000
    ensures DecodeShares(EncodeList(shares, 2, Shares())) == Some(KeyShares(shares))
  {
    PowersOf256();
    SharesFit(shares);
    ListRoundTrip(shares, 2, Shares());
  }

  lemma CodeListBody(e: Extension)
    requires e.CodeList? && ExtensionFits(e) && ExtensionSane(e) && Emitted(e)
    ensures DecodeBody(Code(e), Body(e)) == Some(e)
  {
    CodesRoundTrip(e.listCode, e.codes);
  }

  lemma VectorBody(e: Extension)
    requires e.Vector? && ExtensionFits(e) && ExtensionSane(e) && Emitted(e)
    ensures DecodeBody(Code(e), Body(e)) == Some(e)
  {
    VectorBodyRoundTrip(e.vectorCode, e.data);
  }

  /** Reading an extension body gives back what was written. */
  lemma BodyRoundTrip(e: Extension)
    requires ExtensionFits(e) && ExtensionSane(e) && Emitted(e)
    ensures DecodeBody(Code(e), Body(e)) == Some(e)
  {
    match e
    case HostName(name) => HostNameRoundTrip(name);
    case StatusRequest(_) => StatusRequestRoundTrip();
    case Flag(_) =>
    case SessionTicket(_) =>
    case PreSharedKey(identities, binders) => PreSharedKeyRoundTrip(identities, binders);
    case CodeList(_, _) => CodeListBody(e);
    case Vector(_, _) => VectorBody(e);
    case Alpn(protocols) => AlpnRoundTrip(protocols);
    case KeyShares(shares) => KeySharesRoundTrip(shares);
  }

  lemma {:induction false} HostNameSane(list: bytes, name: bytes)
    requires HostSane(name) && FindHostName(list, name).Some?
    ensures HostSane(FindHostName(list, name).value)
    decreases |list|
  {
    if list != [] {
      var (host, rest) := ReadNonEmpty(list[1..], 2).value;
      HostNameSane(rest, if list[0] != 0 then name else host);
    }
  }

  /** Whatever the parser accepts is sane and carries the code it was found under. */
  lemma DecodedIsSane(code: u16, data: bytes)
    requires DecodeBody(code, data).Some?
    ensures ExtensionSane(DecodeBody(code, data).value) && Code(DecodeBody(code, data).value) == code
  {
    if code == EXTENSION_SERVER_NAME {
      HostNameSane(DecodeVector(data, 2).value, []);
    } else if code == EXTENSION_ALPN {
      ListDecoded(data, 2, Vectors(1));
    } else if code == EXTENSION_KEY_SHARE {
      ListDecoded(data, 2, Shares());
    } else if code == EXTENSION_PRE_SHARED_KEY {
      DecodedPskIsSane(data);
    }
  }

  /** An accepted pre_shared_key body is the encoding of its identities and binders. */
  lemma DecodedPskIsSane(data: bytes)
    requires DecodePreSharedKey(data).Some?
    ensures var e := DecodePreSharedKey(data).value;
            && e.PreSharedKey? && PskSane(e.identities, e.binders) && e.identities != []
            && EncodePreSharedKey(e.identities, e.binders) == data
  {
    var (list, rest) := ReadPrefixed(data, 2).value;
    PrefixedRead(data, 2);
    WrittenElements(list, Identities());
    ListDecoded(rest, 2, Vectors(1));
  }

  /** One round of the extension loop of unmarshal: the same switch, with its inner loops. */
  method ReadExtension(code: u16, data: bytes) returns (r: Option<Extension>)
    ensures r == DecodeBody(code, data)
  {
    if code == EXTENSION_SERVER_NAME {
      r := ReadServerName(data);
    } else if code == EXTENSION_ALPN {
      var protocols := ReadList(data, 2, Vectors(1));
      return if protocols.None? || protocols.value == [] then None else Some(Alpn(protocols.value));
    } else if code == EXTENSION_KEY_SHARE {
      var shares := ReadList(data, 2, Shares());
      return if shares.None? then None else Some(KeyShares(shares.value));
    } else if code == EXTENSION_PRE_SHARED_KEY {
      r := ReadPreSharedKey(data);
    } else if IsCodeList(code) {
      var codes := ReadList(data, Width(code), Codes());
      return if codes.None? || codes.value == [] then None else Some(CodeList(code, codes.value));
    } else {
      return DecodeBody(code, data);
    }
  }

  method ReadServerName(data: bytes) returns (r: Option<Extension>)
    ensures r == DecodeHostName(data)
  {
    var list := DecodeVector(data, 2);
    if list.None? || list.value == [] {
      return None;
    }
    var name := ReadHostName(list.value);
    return if name.None? then None else Some(HostName(name.value));
  }

  method ReadPreSharedKey(data: bytes) returns (r: Option<Extension>)
    ensures r == DecodePreSharedKey(data)
  {
    match ReadPrefixed(data, 2) {
      case None => return None;
      case Some((list, rest)) =>
        var identities := ReadElements(list, Identities());
        var binders := ReadList(rest, 2, Vectors(1));
        if identities.None? || binders.None? || identities.value == [] || binders.value == [] {
          return None;
        }
        return Some(PreSharedKey(identities.value, binders.value));
    }
  }
}
