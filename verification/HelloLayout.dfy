/**
 * The wire layout of both hellos, written out from sections 4.1.2, 4.1.3 and 4.2 of RFC 8446 and the older
 * extension documents in the presentation language of section 3 of RFC 8446, with no reference to how the
 * codec organises its extensions; and the proof that the codec writes exactly that, for every message.
 */
module HelloLayout {
  import opened Bytes
  import opened Wire
  import opened HelloParts
  import opened Extensions
  import CH = ClientHello
  import Codec = ClientHelloCodec
  import SH = ServerHello

  /** The presentation language: octets, numbers, vectors after their length, and things one after another. */
  datatype Data =
    | Octets(octets: bytes)
    | Number(value: nat, width: nat)
    | Vector(width: nat, content: Data)
    | List(items: seq<Data>)

  /** Numbers of one to four octets, most significant octet first. */
  function NumberOctets(n: nat, width: nat): bytes {
    match width
    case 1 => [Low(n)]
    case 2 => [Low(n / 256), Low(n)]
    case 3 => [Low(n / 0x1_0000), Low(n / 256), Low(n)]
    case _ => [Low(n / 0x100_0000), Low(n / 0x1_0000), Low(n / 256), Low(n)]
  }

  /** The octets data stands for. */
  function Render(d: Data): bytes
    decreases d
  {
    match d
    case Octets(b) => b
    case Number(n, width) => NumberOctets(n, width)
    case Vector(width, content) => NumberOctets(|Render(content)|, width) + Render(content)
    case List(items) => RenderAll(items)
  }

  function RenderAll(ds: seq<Data>): bytes
    decreases ds
  {
    if ds == [] then [] else Render(ds[0]) + RenderAll(ds[1..])
  }

  function Vec8(d: Data): Data {
    Vector(1, d)
  }

  function Vec16(d: Data): Data {
    Vector(2, d)
  }

  function Each<T>(xs: seq<T>, item: T -> Data): seq<Data> {
    if xs == [] then [] else [item(xs[0])] + Each(xs[1..], item)
  }

  function Two(n: u16): Data {
    Number(n, 2)
  }

  function Short(b: bytes): Data {
    Vec8(Octets(b))
  }

  function Long(b: bytes): Data {
    Vec16(Octets(b))
  }

  function Share(k: KeyShare): Data {
    List([Number(k.group, 2), Vec16(Octets(k.data))])
  }

  function Identity(k: CH.PskIdentity): Data {
    List([Vec16(Octets(k.identity)), Number(k.obfuscatedTicketAge, 4)])
  }

  /** An extension: its number, and its data after a two-octet length. */
  function Ext(number: u16, data: Data): Data {
    List([Number(number, 2), Vector(2, data)])
  }

  /** An extension that is left out unless there is something to say. */
  function When(present: bool, number: u16, data: Data): seq<Data> {
    if present then [Ext(number, data)] else []
  }

  /** A block of extensions is left out when it is empty. */
  function Block(extensions: seq<Data>): Data {
    if RenderAll(extensions) == [] then Octets([]) else Vec16(List(extensions))
  }

  // The extensions of a ClientHello.

  /** server_name, section 3 of RFC 6066: one host name. */
  function ServerName(c: CH.Common): seq<Data> {
    When(c.serverName != [], 0, Vec16(List([Number(0, 1), Vec16(Octets(c.serverName))])))
  }

  /** status_request, section 8 of RFC 6066: OCSP, no responders, no extensions. */
  function StatusRequest(c: CH.Common): seq<Data> {
    When(c.ocspStapling, 5, Octets([1, 0, 0, 0, 0]))
  }

  /** supported_groups, section 4.2.7 of RFC 8446. */
  function SupportedGroups(c: CH.Common): seq<Data> {
    When(c.supportedCurves != [], 10, Vec16(List(Each(c.supportedCurves, Two))))
  }

  /** ec_point_formats, section 5.1.2 of RFC 8422. */
  function PointFormats(c: CH.Common): seq<Data> {
    When(c.supportedPoints != [], 11, Vec8(Octets(c.supportedPoints)))
  }

  /** session_ticket, section 3.2 of RFC 5077: the ticket itself. */
  function SessionTicket(c: CH.Common): seq<Data> {
    When(c.ticketSupported, 35, Octets(c.sessionTicket))
  }

  /** signature_algorithms, section 4.2.3 of RFC 8446. */
  function SignatureAlgorithms(c: CH.Common): seq<Data> {
    When(c.signatureAlgorithms != [], 13, Vec16(List(Each(c.signatureAlgorithms, Two))))
  }

  /** signature_algorithms_cert, section 4.2.3 of RFC 8446. */
  function SignatureAlgorithmsCert(c: CH.Common): seq<Data> {
    When(c.signatureAlgorithmsCert != [], 50, Vec16(List(Each(c.signatureAlgorithmsCert, Two))))
  }

  /** renegotiation_info, section 3.2 of RFC 5746. */
  function RenegotiationInfo(c: CH.Common): seq<Data> {
    When(c.secureRenegotiationSupported, 0xff01, Vec8(Octets(c.secureRenegotiation)))
  }

  /** application_layer_protocol_negotiation, section 3.1 of RFC 7301. */
  function Protocols(c: CH.Common): seq<Data> {
    When(c.alpnProtocols != [], 16, Vec16(List(Each(c.alpnProtocols, Short))))
  }

  /** signed_certificate_timestamp, section 3.3.1 of RFC 6962. */
  function Timestamps(c: CH.Common): seq<Data> {
    When(c.scts, 18, Octets([]))
  }

  /** supported_versions, section 4.2.1 of RFC 8446: a one-octet length. */
  function SupportedVersions(x: CH.Modern): seq<Data> {
    When(x.supportedVersions != [], 43, Vec8(List(Each(x.supportedVersions, Two))))
  }

  /** cookie, section 4.2.2 of RFC 8446. */
  function Cookie(x: CH.Modern): seq<Data> {
    When(x.cookie != [], 44, Vec16(Octets(x.cookie)))
  }

  /** key_share, section 4.2.8 of RFC 8446. */
  function KeyShares(x: CH.Modern): seq<Data> {
    When(x.keyShares != [], 51, Vec16(List(Each(x.keyShares, Share))))
  }

  /** early_data, section 4.2.10 of RFC 8446. */
  function EarlyData(x: CH.Modern): seq<Data> {
    When(x.earlyData, 42, Octets([]))
  }

  /** psk_key_exchange_modes, section 4.2.9 of RFC 8446. */
  function PskModes(x: CH.Modern): seq<Data> {
    When(x.pskModes != [], 45, Vec8(Octets(x.pskModes)))
  }

  /** pre_shared_key, section 4.2.11 of RFC 8446: identities, then binders. */
  function PreSharedKey(x: CH.Modern): seq<Data> {
    When(x.pskIdentities != [], 41, List([Vec16(List(Each(x.pskIdentities, Identity))), Vec16(List(Each(x.pskBinders, Short)))]))
  }

  function ClientFirst(c: CH.Common, rest: seq<Data>): seq<Data> {
    ServerName(c) + (StatusRequest(c) + (SupportedGroups(c) + (PointFormats(c) + (SessionTicket(c) + rest))))
  }

  function ClientSecond(c: CH.Common, rest: seq<Data>): seq<Data> {
    SignatureAlgorithms(c) + (SignatureAlgorithmsCert(c) + (RenegotiationInfo(c) + (Protocols(c) + (Timestamps(c) + rest))))
  }

  function ClientThird(x: CH.Modern, rest: seq<Data>): seq<Data> {
    SupportedVersions(x) + (Cookie(x) + (KeyShares(x) + (EarlyData(x) + (PskModes(x) + rest))))
  }

  /** The extensions in the order they are sent, pre_shared_key last. */
  function ClientExtensions(m: CH.Hello): seq<Data> {
    ClientFirst(m.common, ClientSecond(m.common, ClientThird(m.modern, PreSharedKey(m.modern))))
  }

  /** Section 4.1.2: a ClientHello with its type and 24-bit length. */
  function ClientLayout(m: CH.Hello): Data {
    List([Number(1, 1),
          Vector(3, List([Number(m.vers, 2), Octets(m.random), Vec8(Octets(m.sessionId)), Vec16(List(Each(m.cipherSuites, Two))),
                          Vec8(Octets(m.compressionMethods)), Block(ClientExtensions(m))]))])
  }

  // The extensions of a ServerHello, and of a HelloRetryRequest in its shape.

  /** status_request: the server will send a status. */
  function OcspReply(c: SH.Common): seq<Data> {
    When(c.ocspStapling, 5, Octets([]))
  }

  /** session_ticket: a ticket will come. */
  function TicketPromise(c: SH.Common): seq<Data> {
    When(c.ticketSupported, 35, Octets([]))
  }

  /** renegotiation_info. */
  function RenegotiationReply(c: SH.Common): seq<Data> {
    When(c.secureRenegotiationSupported, 0xff01, Vec8(Octets(c.secureRenegotiation)))
  }

  /** application_layer_protocol_negotiation: a list of one. */
  function ChosenProtocol(c: SH.Common): seq<Data> {
    When(c.alpnProtocol != [], 16, Vec16(Vec8(Octets(c.alpnProtocol))))
  }

  /** signed_certificate_timestamp: a list of timestamps. */
  function TimestampList(c: SH.Common): seq<Data> {
    When(c.scts != [], 18, Vec16(List(Each(c.scts, Long))))
  }

  /** supported_versions: the version alone. */
  function ChosenVersion(x: SH.Modern): seq<Data> {
    When(x.supportedVersion != 0, 43, Two(x.supportedVersion))
  }

  /** key_share: the server's own share. */
  function ServerShare(x: SH.Modern): seq<Data> {
    When(x.serverShare.group != 0, 51, Share(x.serverShare))
  }

  /** pre_shared_key: the index of an identity. */
  function ChosenIdentity(x: SH.Modern): seq<Data> {
    When(x.selectedIdentityPresent, 41, Two(x.selectedIdentity))
  }

  /** cookie. */
  function RetryCookie(x: SH.Modern): seq<Data> {
    When(x.cookie != [], 44, Vec16(Octets(x.cookie)))
  }

  /** key_share of a HelloRetryRequest: the group alone. */
  function RetryGroup(x: SH.Modern): seq<Data> {
    When(x.selectedGroup != 0, 51, Two(x.selectedGroup))
  }

  /** ec_point_formats. */
  function ServerPointFormats(c: SH.Common): seq<Data> {
    When(c.supportedPoints != [], 11, Vec8(Octets(c.supportedPoints)))
  }

  function ServerFirst(c: SH.Common, rest: seq<Data>): seq<Data> {
    OcspReply(c) + (TicketPromise(c) + (RenegotiationReply(c) + (ChosenProtocol(c) + (TimestampList(c) + rest))))
  }

  function ServerSecond(x: SH.Modern, rest: seq<Data>): seq<Data> {
    ChosenVersion(x) + (ServerShare(x) + (ChosenIdentity(x) + (RetryCookie(x) + (RetryGroup(x) + rest))))
  }

  function ServerExtensions(m: SH.Hello): seq<Data> {
    ServerFirst(m.common, ServerSecond(m.modern, ServerPointFormats(m.common)))
  }

  /** Section 4.1.3. */
  function ServerLayout(m: SH.Hello): Data {
    List([Number(2, 1),
          Vector(3, List([Number(m.vers, 2), Octets(m.random), Vec8(Octets(m.sessionId)), Number(m.cipherSuite, 2),
                          Octets([m.compressionMethod]), Block(ServerExtensions(m))]))])
  }

  // The codec's building blocks in these terms.

  lemma OneOctet(n: nat)
    ensures Be(n, 1) == [Low(n)]
  {
    assert Be(n / 256, 0) == [];
  }

  lemma TwoOctets(n: nat)
    ensures Be(n, 2) == [Low(n / 256), Low(n)]
  {
    OneOctet(n / 256);
  }

  lemma ThreeOctets(n: nat)
    ensures Be(n, 3) == [Low(n / 0x1_0000), Low(n / 256), Low(n)]
  {
    TwoOctets(n / 256);
    assert n / 256 / 256 == n / 0x1_0000;
  }

  lemma FourOctets(n: nat)
    ensures Be(n, 4) == [Low(n / 0x100_0000), Low(n / 0x1_0000), Low(n / 256), Low(n)]
  {
    ThreeOctets(n / 256);
    assert n / 256 / 0x1_0000 == n / 0x100_0000 && n / 256 / 256 == n / 0x1_0000;
  }

  lemma Numbered(n: nat, width: nat)
    requires 1 <= width <= 4
    ensures NumberOctets(n, width) == Be(n, width)
  {
    match width
    case 1 => OneOctet(n);
    case 2 => TwoOctets(n);
    case 3 => ThreeOctets(n);
    case 4 => FourOctets(n);
  }

  lemma Vectored(d: Data, b: bytes, width: nat)
    requires 1 <= width <= 4 && Render(d) == b
    ensures Render(Vector(width, d)) == Prefixed(b, width)
  {
    Numbered(|b|, width);
  }

  lemma Pair(a: Data, b: Data)
    ensures Render(List([a, b])) == Render(a) + Render(b)
  {
    assert [a, b][1..] == [b] && [b][1..] == [];
    assert RenderAll([b]) == Render(b) + RenderAll([]);
  }

  lemma {:induction false} RenderAppend(xs: seq<Data>, ys: seq<Data>)
    ensures RenderAll(xs + ys) == RenderAll(xs) + RenderAll(ys)
  {
    if xs == [] {
      assert xs + ys == ys;
    } else {
      assert (xs + ys)[1..] == xs[1..] + ys;
      RenderAppend(xs[1..], ys);
    }
  }

  lemma {:induction false} WrittenIsEach<T(!new)>(xs: seq<T>, f: ItemFormat<T>, item: T -> Data)
    requires forall x :: f.write(x) == Render(item(x))
    ensures RenderAll(Each(xs, item)) == Written(xs, f)
  {
    if xs != [] {
      WrittenIsEach(xs[1..], f, item);
      assert Each(xs, item)[1..] == Each(xs[1..], item);
    }
  }

  lemma CodesLaidOut(xs: seq<u16>)
    ensures Render(List(Each(xs, Two))) == Written(xs, Codes())
  {
    forall x: u16
      ensures Codes().write(x) == Render(Two(x))
    {
      Numbered(x, 2);
    }
    WrittenIsEach(xs, Codes(), Two);
  }

  lemma ShortsLaidOut(xs: seq<bytes>)
    ensures Render(List(Each(xs, Short))) == Written(xs, Vectors(1))
  {
    forall x: bytes
      ensures Vectors(1).write(x) == Render(Short(x))
    {
      Vectored(Octets(x), x, 1);
    }
    WrittenIsEach(xs, Vectors(1), Short);
  }

  lemma LongsLaidOut(xs: seq<bytes>)
    ensures Render(List(Each(xs, Long))) == Written(xs, Vectors(2))
  {
    forall x: bytes
      ensures Vectors(2).write(x) == Render(Long(x))
    {
      Vectored(Octets(x), x, 2);
    }
    WrittenIsEach(xs, Vectors(2), Long);
  }

  lemma ShareLaidOut(x: KeyShare)
    ensures Render(Share(x)) == WriteShare(x)
  {
    Pair(Number(x.group, 2), Vec16(Octets(x.data)));
    Numbered(x.group, 2);
    Vectored(Octets(x.data), x.data, 2);
  }

  lemma SharesLaidOut(xs: seq<KeyShare>)
    ensures Render(List(Each(xs, Share))) == Written(xs, Shares())
  {
    forall x: KeyShare
      ensures Shares().write(x) == Render(Share(x))
    {
      ShareLaidOut(x);
    }
    WrittenIsEach(xs, Shares(), Share);
  }

  lemma IdentityLaidOut(x: CH.PskIdentity)
    ensures Render(Identity(x)) == CH.WriteIdentity(x)
  {
    Pair(Vec16(Octets(x.identity)), Number(x.obfuscatedTicketAge, 4));
    Numbered(x.obfuscatedTicketAge, 4);
    Vectored(Octets(x.identity), x.identity, 2);
  }

  lemma IdentitiesLaidOut(xs: seq<CH.PskIdentity>)
    ensures Render(List(Each(xs, Identity))) == Written(xs, CH.Identities())
  {
    forall x: CH.PskIdentity
      ensures CH.Identities().write(x) == Render(Identity(x))
    {
      IdentityLaidOut(x);
    }
    WrittenIsEach(xs, CH.Identities(), Identity);
  }

  lemma ExtensionLaidOut(code: u16, data: Data, body: bytes)
    requires Render(data) == body
    ensures Render(Ext(code, data)) == RawExtensions().write(RawExtension(code, body))
  {
    Pair(Number(code, 2), Vector(2, data));
    Numbered(code, 2);
    Vectored(data, body, 2);
  }

  /** A field is written as its extension, if it is there. */
  lemma FieldLaidOut<M, E>(schema: Schema<M, E>, f: Option<E>, e: E, present: bool, code: u16, data: Data)
    requires schema.raw == RawExtensions() && f == (if present then Some(e) else None)
    requires present ==> schema.code(e) == code && schema.body(e) == Render(data)
    ensures EncodeField(schema, f) == RenderAll(When(present, code, data))
  {
    if present {
      ExtensionLaidOut(code, data, Render(data));
      var ext := Ext(code, data);
      assert [ext][1..] == [] && RenderAll([ext]) == Render(ext) + [];
    }
  }

  /** One more field in front. */
  lemma Prepended<M, E>(schema: Schema<M, E>, fields: Fields<E>, k: nat, n: nat, part: seq<Data>, rest: seq<Data>)
    requires k < n && EncodeField(schema, fields(k)) == RenderAll(part)
    requires ExtensionBytes(schema, fields, k + 1, n) == RenderAll(rest)
    ensures ExtensionBytes(schema, fields, k, n) == RenderAll(part + rest)
  {
    RenderAppend(part, rest);
  }

  lemma FivePrepended<M, E>(schema: Schema<M, E>, fields: Fields<E>, k: nat, n: nat, a: seq<Data>, b: seq<Data>, c: seq<Data>,
                            d: seq<Data>, e: seq<Data>, rest: seq<Data>)
    requires k + 5 <= n && ExtensionBytes(schema, fields, k + 5, n) == RenderAll(rest)
    requires EncodeField(schema, fields(k)) == RenderAll(a) && EncodeField(schema, fields(k + 1)) == RenderAll(b)
    requires EncodeField(schema, fields(k + 2)) == RenderAll(c) && EncodeField(schema, fields(k + 3)) == RenderAll(d)
    requires EncodeField(schema, fields(k + 4)) == RenderAll(e)
    ensures ExtensionBytes(schema, fields, k, n) == RenderAll(a + (b + (c + (d + (e + rest)))))
  {
    Prepended(schema, fields, k + 4, n, e, rest);
    Prepended(schema, fields, k + 3, n, d, e + rest);
    Prepended(schema, fields, k + 2, n, c, d + (e + rest));
    Prepended(schema, fields, k + 1, n, b, c + (d + (e + rest)));
    Prepended(schema, fields, k, n, a, b + (c + (d + (e + rest))));
  }

  // The ClientHello codec.

  lemma HostNameData(name: bytes)
    ensures CH.Body(CH.HostName(name)) == Render(Vec16(List([Number(0, 1), Vec16(Octets(name))])))
  {
    Vectored(Octets(name), name, 2);
    Pair(Number(0, 1), Vec16(Octets(name)));
    Vectored(List([Number(0, 1), Vec16(Octets(name))]), [0] + Prefixed(name, 2), 2);
  }

  lemma StatusRequestData()
    ensures CH.Body(CH.StatusRequest(true)) == [1, 0, 0, 0, 0]
  {
    Numbered(0, 2);
  }

  lemma CodeListData(code: u16, codes: seq<u16>)
    ensures code == 10 || code == 13 || code == 50 ==> CH.Body(CH.CodeList(code, codes)) == Render(Vec16(List(Each(codes, Two))))
    ensures code == 43 ==> CH.Body(CH.CodeList(code, codes)) == Render(Vec8(List(Each(codes, Two))))
  {
    var items := List(Each(codes, Two));
    CodesLaidOut(codes);
    Vectored(items, Written(codes, Codes()), 1);
    Vectored(items, Written(codes, Codes()), 2);
  }

  lemma VectorData(code: u16, data: bytes)
    ensures code == 11 || code == 45 || code == 0xff01 ==> CH.Body(CH.Vector(code, data)) == Render(Vec8(Octets(data)))
    ensures code == 44 ==> CH.Body(CH.Vector(code, data)) == Render(Vec16(Octets(data)))
  {
    Vectored(Octets(data), data, 1);
    Vectored(Octets(data), data, 2);
  }

  lemma AlpnData(protocols: seq<bytes>)
    ensures CH.Body(CH.Alpn(protocols)) == Render(Vec16(List(Each(protocols, Short))))
  {
    ShortsLaidOut(protocols);
    Vectored(List(Each(protocols, Short)), Written(protocols, Vectors(1)), 2);
  }

  lemma KeyShareData(shares: seq<KeyShare>)
    ensures CH.Body(CH.KeyShares(shares)) == Render(Vec16(List(Each(shares, Share))))
  {
    SharesLaidOut(shares);
    Vectored(List(Each(shares, Share)), Written(shares, Shares()), 2);
  }

  lemma PreSharedKeyData(identities: seq<CH.PskIdentity>, binders: seq<bytes>)
    ensures CH.Body(CH.PreSharedKey(identities, binders))
         == Render(List([Vec16(List(Each(identities, Identity))), Vec16(List(Each(binders, Short)))]))
  {
    var (a, b) := (List(Each(identities, Identity)), List(Each(binders, Short)));
    IdentitiesLaidOut(identities);
    ShortsLaidOut(binders);
    Vectored(a, Written(identities, CH.Identities()), 2);
    Vectored(b, Written(binders, Vectors(1)), 2);
    Pair(Vec16(a), Vec16(b));
  }

  lemma ServerNamePart(m: CH.Hello)
    ensures EncodeField(Codec.ClientSchema(), Codec.Field(m, 0)) == RenderAll(ServerName(m.common))
  {
    var c := m.common;
    HostNameData(c.serverName);
    FieldLaidOut(Codec.ClientSchema(), Codec.Field(m, 0), CH.HostName(c.serverName), c.serverName != [], 0, Vec16(List([Number(0, 1), Vec16(Octets(c.serverName))])));
  }

  lemma StatusRequestPart(m: CH.Hello)
    ensures EncodeField(Codec.ClientSchema(), Codec.Field(m, 1)) == RenderAll(StatusRequest(m.common))
  {
    var c := m.common;
    StatusRequestData();
    FieldLaidOut(Codec.ClientSchema(), Codec.Field(m, 1), CH.StatusRequest(true), c.ocspStapling, 5, Octets([1, 0, 0, 0, 0]));
  }

  lemma SupportedGroupsPart(m: CH.Hello)
    ensures EncodeField(Codec.ClientSchema(), Codec.Field(m, 2)) == RenderAll(SupportedGroups(m.common))
  {
    var c := m.common;
    CodeListData(10, c.supportedCurves);
    FieldLaidOut(Codec.ClientSchema(), Codec.Field(m, 2), CH.CodeList(10, c.supportedCurves), c.supportedCurves != [], 10, Vec16(List(Each(c.supportedCurves, Two))));
  }

  lemma PointFormatsPart(m: CH.Hello)
    ensures EncodeField(Codec.ClientSchema(), Codec.Field(m, 3)) == RenderAll(PointFormats(m.common))
  {
    var c := m.common;
    VectorData(11, c.supportedPoints);
    FieldLaidOut(Codec.ClientSchema(), Codec.Field(m, 3), CH.Vector(11, c.supportedPoints), c.supportedPoints != [], 11, Vec8(Octets(c.supportedPoints)));
  }

  lemma SessionTicketPart(m: CH.Hello)
    ensures EncodeField(Codec.ClientSchema(), Codec.Field(m, 4)) == RenderAll(SessionTicket(m.common))
  {
    var c := m.common;
    FieldLaidOut(Codec.ClientSchema(), Codec.Field(m, 4), CH.SessionTicket(c.sessionTicket), c.ticketSupported, 35, Octets(c.sessionTicket));
  }

  lemma SignatureAlgorithmsPart(m: CH.Hello)
    ensures EncodeField(Codec.ClientSchema(), Codec.Field(m, 5)) == RenderAll(SignatureAlgorithms(m.common))
  {
    var c := m.common;
    CodeListData(13, c.signatureAlgorithms);
    FieldLaidOut(Codec.ClientSchema(), Codec.Field(m, 5), CH.CodeList(13, c.signatureAlgorithms), c.signatureAlgorithms != [], 13, Vec16(List(Each(c.signatureAlgorithms, Two))));
  }

  lemma SignatureAlgorithmsCertPart(m: CH.Hello)
    ensures EncodeField(Codec.ClientSchema(), Codec.Field(m, 6)) == RenderAll(SignatureAlgorithmsCert(m.common))
  {
    var c := m.common;
    CodeListData(50, c.signatureAlgorithmsCert);
    FieldLaidOut(Codec.ClientSchema(), Codec.Field(m, 6), CH.CodeList(50, c.signatureAlgorithmsCert), c.signatureAlgorithmsCert != [], 50, Vec16(List(Each(c.signatureAlgorithmsCert, Two))));
  }

  lemma RenegotiationInfoPart(m: CH.Hello)
    ensures EncodeField(Codec.ClientSchema(), Codec.Field(m, 7)) == RenderAll(RenegotiationInfo(m.common))
  {
    var c := m.common;
    VectorData(0xff01, c.secureRenegotiation);
    FieldLaidOut(Codec.ClientSchema(), Codec.Field(m, 7), CH.Vector(0xff01, c.secureRenegotiation), c.secureRenegotiationSupported, 0xff01, Vec8(Octets(c.secureRenegotiation)));
  }

  lemma ProtocolsPart(m: CH.Hello)
    ensures EncodeField(Codec.ClientSchema(), Codec.Field(m, 8)) == RenderAll(Protocols(m.common))
  {
    var c := m.common;
    AlpnData(c.alpnProtocols);
    FieldLaidOut(Codec.ClientSchema(), Codec.Field(m, 8), CH.Alpn(c.alpnProtocols), c.alpnProtocols != [], 16, Vec16(List(Each(c.alpnProtocols, Short))));
  }

  lemma TimestampsPart(m: CH.Hello)
    ensures EncodeField(Codec.ClientSchema(), Codec.Field(m, 9)) == RenderAll(Timestamps(m.common))
  {
    var c := m.common;
    FieldLaidOut(Codec.ClientSchema(), Codec.Field(m, 9), CH.Flag(18), c.scts, 18, Octets([]));
  }

  lemma SupportedVersionsPart(m: CH.Hello)
    ensures EncodeField(Codec.ClientSchema(), Codec.Field(m, 10)) == RenderAll(SupportedVersions(m.modern))
  {
    var x := m.modern;
    CodeListData(43, x.supportedVersions);
    FieldLaidOut(Codec.ClientSchema(), Codec.Field(m, 10), CH.CodeList(43, x.supportedVersions), x.supportedVersions != [], 43, Vec8(List(Each(x.supportedVersions, Two))));
  }

  lemma CookiePart(m: CH.Hello)
    ensures EncodeField(Codec.ClientSchema(), Codec.Field(m, 11)) == RenderAll(Cookie(m.modern))
  {
    var x := m.modern;
    VectorData(44, x.cookie);
    FieldLaidOut(Codec.ClientSchema(), Codec.Field(m, 11), CH.Vector(44, x.cookie), x.cookie != [], 44, Vec16(Octets(x.cookie)));
  }

  lemma KeySharesPart(m: CH.Hello)
    ensures EncodeField(Codec.ClientSchema(), Codec.Field(m, 12)) == RenderAll(KeyShares(m.modern))
  {
    var x := m.modern;
    KeyShareData(x.keyShares);
    FieldLaidOut(Codec.ClientSchema(), Codec.Field(m, 12), CH.KeyShares(x.keyShares), x.keyShares != [], 51, Vec16(List(Each(x.keyShares, Share))));
  }

  lemma EarlyDataPart(m: CH.Hello)
    ensures EncodeField(Codec.ClientSchema(), Codec.Field(m, 13)) == RenderAll(EarlyData(m.modern))
  {
    var x := m.modern;
    FieldLaidOut(Codec.ClientSchema(), Codec.Field(m, 13), CH.Flag(42), x.earlyData, 42, Octets([]));
  }

  lemma PskModesPart(m: CH.Hello)
    ensures EncodeField(Codec.ClientSchema(), Codec.Field(m, 14)) == RenderAll(PskModes(m.modern))
  {
    var x := m.modern;
    VectorData(45, x.pskModes);
    FieldLaidOut(Codec.ClientSchema(), Codec.Field(m, 14), CH.Vector(45, x.pskModes), x.pskModes != [], 45, Vec8(Octets(x.pskModes)));
  }

  lemma PreSharedKeyPart(m: CH.Hello)
    ensures EncodeField(Codec.ClientSchema(), Codec.Field(m, 15)) == RenderAll(PreSharedKey(m.modern))
  {
    var x := m.modern;
    PreSharedKeyData(x.pskIdentities, x.pskBinders);
    FieldLaidOut(Codec.ClientSchema(), Codec.Field(m, 15), CH.PreSharedKey(x.pskIdentities, x.pskBinders), x.pskIdentities != [], 41, List([Vec16(List(Each(x.pskIdentities, Identity))), Vec16(List(Each(x.pskBinders, Short)))]));
  }

  lemma ClientFirstLaidOut(m: CH.Hello, rest: seq<Data>)
    requires ExtensionBytes(Codec.ClientSchema(), Codec.FieldsOf(m), 5, 16) == RenderAll(rest)
    ensures ExtensionBytes(Codec.ClientSchema(), Codec.FieldsOf(m), 0, 16) == RenderAll(ClientFirst(m.common, rest))
  {
    var c := m.common;
    ServerNamePart(m);
    StatusRequestPart(m);
    SupportedGroupsPart(m);
    PointFormatsPart(m);
    SessionTicketPart(m);
    FivePrepended(Codec.ClientSchema(), Codec.FieldsOf(m), 0, 16, ServerName(c), StatusRequest(c), SupportedGroups(c), PointFormats(c), SessionTicket(c), rest);
  }

  lemma ClientSecondLaidOut(m: CH.Hello, rest: seq<Data>)
    requires ExtensionBytes(Codec.ClientSchema(), Codec.FieldsOf(m), 10, 16) == RenderAll(rest)
    ensures ExtensionBytes(Codec.ClientSchema(), Codec.FieldsOf(m), 5, 16) == RenderAll(ClientSecond(m.common, rest))
  {
    var c := m.common;
    SignatureAlgorithmsPart(m);
    SignatureAlgorithmsCertPart(m);
    RenegotiationInfoPart(m);
    ProtocolsPart(m);
    TimestampsPart(m);
    FivePrepended(Codec.ClientSchema(), Codec.FieldsOf(m), 5, 16, SignatureAlgorithms(c), SignatureAlgorithmsCert(c), RenegotiationInfo(c), Protocols(c), Timestamps(c), rest);
  }

  lemma ClientThirdLaidOut(m: CH.Hello, rest: seq<Data>)
    requires ExtensionBytes(Codec.ClientSchema(), Codec.FieldsOf(m), 15, 16) == RenderAll(rest)
    ensures ExtensionBytes(Codec.ClientSchema(), Codec.FieldsOf(m), 10, 16) == RenderAll(ClientThird(m.modern, rest))
  {
    var x := m.modern;
    SupportedVersionsPart(m);
    CookiePart(m);
    KeySharesPart(m);
    EarlyDataPart(m);
    PskModesPart(m);
    FivePrepended(Codec.ClientSchema(), Codec.FieldsOf(m), 10, 16, SupportedVersions(x), Cookie(x), KeyShares(x), EarlyData(x), PskModes(x), rest);
  }

  lemma ClientExtensionsLaidOut(m: CH.Hello)
    ensures Codec.ExtensionsOf(m) == RenderAll(ClientExtensions(m))
  {
    var last := PreSharedKey(m.modern);
    PreSharedKeyPart(m);
    Prepended(Codec.ClientSchema(), Codec.FieldsOf(m), 15, 16, last, []);
    assert last + [] == last;
    ClientThirdLaidOut(m, last);
    ClientSecondLaidOut(m, ClientThird(m.modern, last));
    ClientFirstLaidOut(m, ClientSecond(m.common, ClientThird(m.modern, last)));
  }

  lemma BlockLaidOut(extensions: seq<Data>)
    ensures Render(Block(extensions)) == ExtensionBlock(RenderAll(extensions))
  {
    Vectored(List(extensions), RenderAll(extensions), 2);
  }

  lemma Six(a: Data, b: Data, c: Data, d: Data, e: Data, f: Data)
    ensures Render(List([a, b, c, d, e, f])) == Render(a) + (Render(b) + (Render(c) + (Render(d) + Render(e)))) + Render(f)
  {
    Pair(e, f);
    assert [a, b, c, d, e, f] == [a] + [b] + [c] + [d] + [e, f];
    RenderAppend([a] + [b] + [c] + [d], [e, f]);
    RenderAppend([a] + [b] + [c], [d]);
    RenderAppend([a] + [b], [c]);
    RenderAppend([a], [b]);
    forall x: Data
      ensures RenderAll([x]) == Render(x)
    {
      One(x);
    }
    Regrouped(Render(a), Render(b), Render(c), Render(d), Render(e), Render(f));
  }

  lemma One(x: Data)
    ensures RenderAll([x]) == Render(x)
  {
    assert [x][1..] == [] && Render(x) + [] == Render(x);
  }

  lemma Regrouped(a: bytes, b: bytes, c: bytes, d: bytes, e: bytes, f: bytes)
    ensures a + b + c + d + (e + f) == a + (b + (c + (d + e))) + f
  {
  }

  /** Every ClientHello is written in the layout of section 4.1.2. */
  lemma ClientHelloLaidOut(m: CH.Hello)
    ensures Codec.HelloBytes(m) == Render(ClientLayout(m))
  {
    ClientExtensionsLaidOut(m);
    ClientFixedLaidOut(m, ClientExtensions(m));
  }

  lemma ClientFixedLaidOut(m: CH.Hello, extensions: seq<Data>)
    ensures Render(List([Number(1, 1),
              Vector(3, List([Number(m.vers, 2), Octets(m.random), Vec8(Octets(m.sessionId)), Vec16(List(Each(m.cipherSuites, Two))),
                              Vec8(Octets(m.compressionMethods)), Block(extensions)]))]))
         == [1] + Prefixed(Codec.FixedBytes(m) + ExtensionBlock(RenderAll(extensions)), 3)
  {
    var (a, b, c) := (Number(m.vers, 2), Octets(m.random), Vec8(Octets(m.sessionId)));
    var (d, e, f) := (Vec16(List(Each(m.cipherSuites, Two))), Vec8(Octets(m.compressionMethods)), Block(extensions));
    Numbered(m.vers, 2);
    Vectored(Octets(m.sessionId), m.sessionId, 1);
    CodesLaidOut(m.cipherSuites);
    Vectored(List(Each(m.cipherSuites, Two)), Written(m.cipherSuites, Codes()), 2);
    Vectored(Octets(m.compressionMethods), m.compressionMethods, 1);
    BlockLaidOut(extensions);
    Six(a, b, c, d, e, f);
    var body := List([a, b, c, d, e, f]);
    Vectored(body, Codec.FixedBytes(m) + ExtensionBlock(RenderAll(extensions)), 3);
    Pair(Number(1, 1), Vector(3, body));
  }

  // The ServerHello codec.

  lemma ServerVectorData(code: u16, data: bytes)
    ensures code == 11 || code == 0xff01 ==> SH.Body(SH.Vector(code, data)) == Render(Vec8(Octets(data)))
    ensures code == 44 ==> SH.Body(SH.Vector(code, data)) == Render(Vec16(Octets(data)))
  {
    Vectored(Octets(data), data, 1);
    Vectored(Octets(data), data, 2);
  }

  lemma ProtocolData(protocol: bytes)
    ensures SH.Body(SH.Protocol(protocol)) == Render(Vec16(Vec8(Octets(protocol))))
  {
    Vectored(Octets(protocol), protocol, 1);
    Vectored(Vec8(Octets(protocol)), Prefixed(protocol, 1), 2);
  }

  lemma TimestampsData(scts: seq<bytes>)
    ensures SH.Body(SH.Timestamps(scts)) == Render(Vec16(List(Each(scts, Long))))
  {
    LongsLaidOut(scts);
    Vectored(List(Each(scts, Long)), Written(scts, Vectors(2)), 2);
  }

  lemma NumberData(code: u16, n: u16)
    ensures SH.Body(SH.Number(code, n)) == Render(Two(n))
  {
    Numbered(n, 2);
  }

  lemma OcspReplyPart(m: SH.Hello)
    ensures EncodeField(SH.ServerSchema(), SH.Field(m, 0)) == RenderAll(OcspReply(m.common))
  {
    var c := m.common;
    FieldLaidOut(SH.ServerSchema(), SH.Field(m, 0), SH.Flag(5), c.ocspStapling, 5, Octets([]));
  }

  lemma TicketPromisePart(m: SH.Hello)
    ensures EncodeField(SH.ServerSchema(), SH.Field(m, 1)) == RenderAll(TicketPromise(m.common))
  {
    var c := m.common;
    FieldLaidOut(SH.ServerSchema(), SH.Field(m, 1), SH.Flag(35), c.ticketSupported, 35, Octets([]));
  }

  lemma RenegotiationReplyPart(m: SH.Hello)
    ensures EncodeField(SH.ServerSchema(), SH.Field(m, 2)) == RenderAll(RenegotiationReply(m.common))
  {
    var c := m.common;
    ServerVectorData(0xff01, c.secureRenegotiation);
    FieldLaidOut(SH.ServerSchema(), SH.Field(m, 2), SH.Vector(0xff01, c.secureRenegotiation), c.secureRenegotiationSupported, 0xff01, Vec8(Octets(c.secureRenegotiation)));
  }

  lemma ChosenProtocolPart(m: SH.Hello)
    ensures EncodeField(SH.ServerSchema(), SH.Field(m, 3)) == RenderAll(ChosenProtocol(m.common))
  {
    var c := m.common;
    ProtocolData(c.alpnProtocol);
    FieldLaidOut(SH.ServerSchema(), SH.Field(m, 3), SH.Protocol(c.alpnProtocol), c.alpnProtocol != [], 16, Vec16(Vec8(Octets(c.alpnProtocol))));
  }

  lemma TimestampListPart(m: SH.Hello)
    ensures EncodeField(SH.ServerSchema(), SH.Field(m, 4)) == RenderAll(TimestampList(m.common))
  {
    var c := m.common;
    TimestampsData(c.scts);
    FieldLaidOut(SH.ServerSchema(), SH.Field(m, 4), SH.Timestamps(c.scts), c.scts != [], 18, Vec16(List(Each(c.scts, Long))));
  }

  lemma ChosenVersionPart(m: SH.Hello)
    ensures EncodeField(SH.ServerSchema(), SH.Field(m, 5)) == RenderAll(ChosenVersion(m.modern))
  {
    var x := m.modern;
    NumberData(43, x.supportedVersion);
    FieldLaidOut(SH.ServerSchema(), SH.Field(m, 5), SH.Number(43, x.supportedVersion), x.supportedVersion != 0, 43, Two(x.supportedVersion));
  }

  lemma ServerSharePart(m: SH.Hello)
    ensures EncodeField(SH.ServerSchema(), SH.Field(m, 6)) == RenderAll(ServerShare(m.modern))
  {
    var x := m.modern;
    ShareLaidOut(x.serverShare);
    FieldLaidOut(SH.ServerSchema(), SH.Field(m, 6), SH.Share(x.serverShare), x.serverShare.group != 0, 51, Share(x.serverShare));
  }

  lemma ChosenIdentityPart(m: SH.Hello)
    ensures EncodeField(SH.ServerSchema(), SH.Field(m, 7)) == RenderAll(ChosenIdentity(m.modern))
  {
    var x := m.modern;
    NumberData(41, x.selectedIdentity);
    FieldLaidOut(SH.ServerSchema(), SH.Field(m, 7), SH.Number(41, x.selectedIdentity), x.selectedIdentityPresent, 41, Two(x.selectedIdentity));
  }

  lemma RetryCookiePart(m: SH.Hello)
    ensures EncodeField(SH.ServerSchema(), SH.Field(m, 8)) == RenderAll(RetryCookie(m.modern))
  {
    var x := m.modern;
    ServerVectorData(44, x.cookie);
    FieldLaidOut(SH.ServerSchema(), SH.Field(m, 8), SH.Vector(44, x.cookie), x.cookie != [], 44, Vec16(Octets(x.cookie)));
  }

  lemma RetryGroupPart(m: SH.Hello)
    ensures EncodeField(SH.ServerSchema(), SH.Field(m, 9)) == RenderAll(RetryGroup(m.modern))
  {
    var x := m.modern;
    NumberData(51, x.selectedGroup);
    FieldLaidOut(SH.ServerSchema(), SH.Field(m, 9), SH.Number(51, x.selectedGroup), x.selectedGroup != 0, 51, Two(x.selectedGroup));
  }

  lemma ServerPointFormatsPart(m: SH.Hello)
    ensures EncodeField(SH.ServerSchema(), SH.Field(m, 10)) == RenderAll(ServerPointFormats(m.common))
  {
    var c := m.common;
    ServerVectorData(11, c.supportedPoints);
    FieldLaidOut(SH.ServerSchema(), SH.Field(m, 10), SH.Vector(11, c.supportedPoints), c.supportedPoints != [], 11, Vec8(Octets(c.supportedPoints)));
  }

  lemma ServerFirstLaidOut(m: SH.Hello, rest: seq<Data>)
    requires ExtensionBytes(SH.ServerSchema(), SH.FieldsOf(m), 5, 11) == RenderAll(rest)
    ensures ExtensionBytes(SH.ServerSchema(), SH.FieldsOf(m), 0, 11) == RenderAll(ServerFirst(m.common, rest))
  {
    var c := m.common;
    OcspReplyPart(m);
    TicketPromisePart(m);
    RenegotiationReplyPart(m);
    ChosenProtocolPart(m);
    TimestampListPart(m);
    FivePrepended(SH.ServerSchema(), SH.FieldsOf(m), 0, 11, OcspReply(c), TicketPromise(c), RenegotiationReply(c), ChosenProtocol(c), TimestampList(c), rest);
  }

  lemma ServerSecondLaidOut(m: SH.Hello, rest: seq<Data>)
    requires ExtensionBytes(SH.ServerSchema(), SH.FieldsOf(m), 10, 11) == RenderAll(rest)
    ensures ExtensionBytes(SH.ServerSchema(), SH.FieldsOf(m), 5, 11) == RenderAll(ServerSecond(m.modern, rest))
  {
    var x := m.modern;
    ChosenVersionPart(m);
    ServerSharePart(m);
    ChosenIdentityPart(m);
    RetryCookiePart(m);
    RetryGroupPart(m);
    FivePrepended(SH.ServerSchema(), SH.FieldsOf(m), 5, 11, ChosenVersion(x), ServerShare(x), ChosenIdentity(x), RetryCookie(x), RetryGroup(x), rest);
  }

  lemma ServerExtensionsLaidOut(m: SH.Hello)
    ensures SH.ExtensionsOf(m) == RenderAll(ServerExtensions(m))
  {
    var last := ServerPointFormats(m.common);
    ServerPointFormatsPart(m);
    Prepended(SH.ServerSchema(), SH.FieldsOf(m), 10, 11, last, []);
    assert last + [] == last;
    ServerSecondLaidOut(m, last);
    ServerFirstLaidOut(m, ServerSecond(m.modern, last));
  }

  /** Every ServerHello and HelloRetryRequest is written in the layout of section 4.1.3. */
  lemma ServerHelloLaidOut(m: SH.Hello)
    ensures SH.HelloBytes(m) == Render(ServerLayout(m))
  {
    ServerExtensionsLaidOut(m);
    ServerFixedLaidOut(m, ServerExtensions(m));
  }

  lemma ServerFixedLaidOut(m: SH.Hello, extensions: seq<Data>)
    ensures Render(List([Number(2, 1),
              Vector(3, List([Number(m.vers, 2), Octets(m.random), Vec8(Octets(m.sessionId)), Number(m.cipherSuite, 2),
                              Octets([m.compressionMethod]), Block(extensions)]))]))
         == [2] + Prefixed(SH.FixedBytes(m) + ExtensionBlock(RenderAll(extensions)), 3)
  {
    var (a, b, c) := (Number(m.vers, 2), Octets(m.random), Vec8(Octets(m.sessionId)));
    var (d, e, f) := (Number(m.cipherSuite, 2), Octets([m.compressionMethod]), Block(extensions));
    Numbered(m.vers, 2);
    Vectored(Octets(m.sessionId), m.sessionId, 1);
    Numbered(m.cipherSuite, 2);
    BlockLaidOut(extensions);
    Six(a, b, c, d, e, f);
    var body := List([a, b, c, d, e, f]);
    Vectored(body, SH.FixedBytes(m) + ExtensionBlock(RenderAll(extensions)), 3);
    Pair(Number(2, 1), Vector(3, body));
  }
}
