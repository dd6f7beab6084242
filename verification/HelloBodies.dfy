/**
 * handshake_messages.go: what the parsers of single extensions accept. For every extension but two of the
 * ClientHello, exactly the layout of one value is read as that value, and nothing else is read at all; the
 * server_name and status_request of a ClientHello are read more liberally, and it is said how.
 */
module HelloBodies {
  import opened Bytes
  import opened Wire
  import opened HelloParts
  import opened HelloLayout
  import CH = ClientHello
  import SH = ServerHello

  /** The layout of an extension's data, by its number. */
  function ClientData(e: CH.Extension): Data {
    match e
    case HostName(name) => Vec16(List([Number(0, 1), Vec16(Octets(name))]))
    case StatusRequest(_) => Octets([1, 0, 0, 0, 0])
    case CodeList(code, codes) => if code == 43 then Vec8(List(Each(codes, Two))) else Vec16(List(Each(codes, Two)))
    case Vector(code, data) => if code == 44 then Vec16(Octets(data)) else Vec8(Octets(data))
    case Flag(_) => Octets([])
    case SessionTicket(ticket) => Octets(ticket)
    case Alpn(protocols) => Vec16(List(Each(protocols, Short)))
    case KeyShares(shares) => Vec16(List(Each(shares, Share)))
    case PreSharedKey(identities, binders) => List([Vec16(List(Each(identities, Identity))), Vec16(List(Each(binders, Short)))])
    case Unknown(_) => Octets([])
  }

  lemma ClientDataLaidOut(e: CH.Extension)
    requires CH.ExtensionSane(e) && CH.Emitted(e)
    ensures CH.Body(e) == Render(ClientData(e))
  {
    match e
    case HostName(name) => HostNameData(name);
    case StatusRequest(_) => StatusRequestData();
    case CodeList(code, codes) => CodeListData(code, codes);
    case Vector(code, data) => VectorData(code, data);
    case Flag(_) =>
    case SessionTicket(_) =>
    case Alpn(protocols) => AlpnData(protocols);
    case KeyShares(shares) => KeyShareData(shares);
    case PreSharedKey(identities, binders) => PreSharedKeyData(identities, binders);
  }

  /** The extensions that are read strictly. */
  predicate Strict(code: u16) {
    code in {10, 11, 13, 16, 18, 35, 41, 42, 43, 44, 45, 50, 51, 0xff01}
  }

  lemma {:induction false} AllShortItems(vs: seq<bytes>)
    requires AllValid(vs, Vectors(1))
    ensures CH.AllShort(vs)
  {
    PowersOf256();
    forall i | 0 <= i < |vs|
      ensures |vs[i]| < 0x100
    {
      assert Vectors(1).valid(vs[i]);
    }
  }

  lemma PskWritten(data: bytes)
    requires CH.DecodePreSharedKey(data).Some?
    ensures CH.AllShort(CH.DecodePreSharedKey(data).value.binders)
  {
    var (list, rest) := ReadPrefixed(data, 2).value;
    ListDecoded(rest, 2, Vectors(1));
    AllShortItems(DecodeList(rest, 2, Vectors(1)).value);
  }

  lemma CodesWritten(code: u16, data: bytes)
    requires CH.IsCodeList(code) && |data| < 0x1_0000 && CH.DecodeCodes(code, data).Some?
    ensures var e := CH.DecodeCodes(code, data).value; CH.Body(e) == data && CH.Emitted(e) && CH.ExtensionFits(e)
  {
    ListDecoded(data, CH.Width(code), Codes());
  }

  lemma VectorWritten(code: u16, data: bytes)
    requires CH.IsVector(code) && |data| < 0x1_0000 && CH.DecodeVectorBody(code, data).Some?
    ensures var e := CH.DecodeVectorBody(code, data).value; CH.Body(e) == data && CH.Emitted(e) && CH.ExtensionFits(e)
  {
    PrefixedRead(data, CH.Width(code));
    var (b, rest) := ReadPrefixed(data, CH.Width(code)).value;
    assert Prefixed(b, CH.Width(code)) + rest == Prefixed(b, CH.Width(code));
  }

  lemma AlpnWritten(data: bytes)
    requires |data| < 0x1_0000 && CH.DecodeAlpn(data).Some?
    ensures var e := CH.DecodeAlpn(data).value; CH.Body(e) == data && CH.Emitted(e) && CH.ExtensionFits(e)
  {
    ListDecoded(data, 2, Vectors(1));
    AllShortItems(DecodeList(data, 2, Vectors(1)).value);
  }

  /** A body the parser accepts is the writing of what it read. */
  lemma AcceptedIsWritten(code: u16, data: bytes)
    requires Strict(code) && |data| < 0x1_0000 && CH.DecodeBody(code, data).Some?
    ensures var e := CH.DecodeBody(code, data).value; CH.Body(e) == data && CH.Emitted(e) && CH.ExtensionFits(e)
  {
    if CH.IsCodeList(code) {
      CodesWritten(code, data);
    } else if CH.IsVector(code) {
      VectorWritten(code, data);
    } else if code == 16 {
      AlpnWritten(data);
    } else if code == 51 {
      ListDecoded(data, 2, Shares());
    } else if code == 41 {
      CH.DecodedPskIsSane(data);
      PskWritten(data);
    }
  }

  /**
   * A strictly read extension of a ClientHello gives a value exactly if it is that value's layout, the value
   * has no empty part where none is allowed, and no length overflows.
   */
  lemma ClientBodyReadExactly(code: u16, data: bytes, e: CH.Extension)
    requires Strict(code) && |data| < 0x1_0000
    ensures CH.DecodeBody(code, data) == Some(e) <==>
      CH.Code(e) == code && CH.ExtensionFits(e) && CH.ExtensionSane(e) && CH.Emitted(e) && data == Render(ClientData(e))
  {
    if CH.DecodeBody(code, data) == Some(e) {
      CH.DecodedIsSane(code, data);
      AcceptedIsWritten(code, data);
      ClientDataLaidOut(e);
    } else if CH.Code(e) == code && CH.ExtensionFits(e) && CH.ExtensionSane(e) && CH.Emitted(e) && data == Render(ClientData(e)) {
      ClientDataLaidOut(e);
      CH.BodyRoundTrip(e);
    }
  }

  /** A status_request: its type, responders and request extensions. */
  function StatusOctets(kind: byte, responders: bytes, requests: bytes): bytes {
    [kind] + (Be(|responders|, 2) + responders) + (Be(|requests|, 2) + requests)
  }

  ghost predicate IsStatus(data: bytes, kind: byte, responders: bytes, requests: bytes) {
    |responders| < 0x1_0000 && |requests| < 0x1_0000 && data == StatusOctets(kind, responders, requests)
  }

  lemma StatusReads(kind: byte, responders: bytes, requests: bytes)
    requires |responders| < 0x1_0000 && |requests| < 0x1_0000
    ensures CH.DecodeStatusRequest(StatusOctets(kind, responders, requests)) == Some(CH.StatusRequest(kind == 1))
  {
    PowersOf256();
    var data := StatusOctets(kind, responders, requests);
    assert data[1..] == Prefixed(responders, 2) + Prefixed(requests, 2);
    ReadsPrefixed(responders, 2, Prefixed(requests, 2));
    ReadsPrefixed(requests, 2, []);
    assert Prefixed(requests, 2) + [] == Prefixed(requests, 2);
  }

  /** A status_request is read whatever responders and extensions it names, and asks for OCSP exactly if its type is one. */
  lemma StatusReadExactly(data: bytes, e: CH.Extension)
    ensures CH.DecodeBody(5, data) == Some(e) <==>
      exists kind, responders, requests :: IsStatus(data, kind, responders, requests) && e == CH.StatusRequest(kind == 1)
  {
    if CH.DecodeBody(5, data) == Some(e) {
      PowersOf256();
      PrefixedRead(data[1..], 2);
      var (responders, tail) := ReadPrefixed(data[1..], 2).value;
      PrefixedRead(tail, 2);
      var (requests, rest) := ReadPrefixed(tail, 2).value;
      assert Prefixed(requests, 2) + rest == Prefixed(requests, 2);
      assert data == [data[0]] + data[1..];
      assert IsStatus(data, data[0], responders, requests);
    }
    forall kind, responders, requests | IsStatus(data, kind, responders, requests)
      ensures CH.DecodeBody(5, data) == Some(CH.StatusRequest(kind == 1))
    {
      StatusReads(kind, responders, requests);
    }
  }

  /** An entry of a server_name list. */
  datatype Entry = Entry(kind: byte, name: bytes)

  function EntryOctets(es: seq<Entry>): bytes {
    if es == [] then [] else [es[0].kind] + (Be(|es[0].name|, 2) + es[0].name) + EntryOctets(es[1..])
  }

  predicate Named(es: seq<Entry>) {
    forall i :: 0 <= i < |es| ==> 0 < |es[i].name| < 0x1_0000
  }

  /** The only host name among the entries, or the one already known; None for two of them or a trailing dot. */
  function HostOf(es: seq<Entry>, known: bytes): Option<bytes> {
    if es == [] then Some(known)
    else if es[0].kind != 0 then HostOf(es[1..], known)
    else if known != [] || (es[0].name != [] && es[0].name[|es[0].name| - 1] == 0x2e) then None
    else HostOf(es[1..], es[0].name)
  }

  lemma DropKind(kind: byte, b: bytes, rest: bytes)
    ensures var list := [kind] + b + rest; list[0] == kind && list[1..] == b + rest
  {
  }

  lemma FirstEntry(kind: byte, name: bytes, rest: bytes)
    requires 0 < |name| < 0x1_0000
    ensures var list := [kind] + Prefixed(name, 2) + rest; list[0] == kind && ReadNonEmpty(list[1..], 2) == Some((name, rest))
  {
    PowersOf256();
    ReadsPrefixed(name, 2, rest);
    DropKind(kind, Prefixed(name, 2), rest);
  }

  lemma {:induction false} EntriesRead(es: seq<Entry>, known: bytes)
    requires Named(es)
    ensures CH.FindHostName(EntryOctets(es), known) == HostOf(es, known)
  {
    if es != [] {
      var (e, rest) := (es[0], es[1..]);
      FirstEntry(e.kind, e.name, EntryOctets(rest));
      EntriesRead(rest, if e.kind != 0 then known else e.name);
    }
  }

  lemma OneMoreEntry(list: bytes, host: bytes, rest: bytes, es: seq<Entry>)
    requires list != [] && ReadNonEmpty(list[1..], 2) == Some((host, rest)) && Named(es) && EntryOctets(es) == rest
    ensures var all := [Entry(list[0], host)] + es; Named(all) && EntryOctets(all) == list
  {
    PowersOf256();
    PrefixedRead(list[1..], 2);
    var all := [Entry(list[0], host)] + es;
    assert all[1..] == es;
    Rejoined(list, Prefixed(host, 2), rest);
  }

  lemma Rejoined(list: bytes, b: bytes, rest: bytes)
    requires list != [] && list[1..] == b + rest
    ensures [list[0]] + b + rest == list
  {
    assert list == [list[0]] + list[1..];
  }

  lemma {:induction false} EntriesOf(list: bytes, known: bytes) returns (es: seq<Entry>)
    requires CH.FindHostName(list, known).Some?
    ensures Named(es) && EntryOctets(es) == list
    decreases |list|
  {
    if list == [] {
      return [];
    }
    var (host, rest) := ReadNonEmpty(list[1..], 2).value;
    es := EntriesOf(rest, if list[0] != 0 then known else host);
    OneMoreEntry(list, host, rest, es);
    es := [Entry(list[0], host)] + es;
  }

  /** A server_name list is read exactly if it is a list of non-empty names, and gives the only host name among them. */
  lemma HostNamesReadExactly(list: bytes, name: bytes)
    ensures CH.FindHostName(list, []) == Some(name) <==> exists es :: Named(es) && EntryOctets(es) == list && HostOf(es, []) == Some(name)
  {
    if CH.FindHostName(list, []) == Some(name) {
      var es := EntriesOf(list, []);
      EntriesRead(es, []);
    }
    if es :| Named(es) && EntryOctets(es) == list && HostOf(es, []) == Some(name) {
      EntriesRead(es, []);
    }
  }

  // The ServerHello.

  function ServerData(e: SH.Extension): Data {
    match e
    case Flag(_) => Octets([])
    case Vector(code, data) => if code == 44 then Vec16(Octets(data)) else Vec8(Octets(data))
    case Number(_, n) => Two(n)
    case Protocol(protocol) => Vec16(Vec8(Octets(protocol)))
    case Timestamps(scts) => Vec16(List(Each(scts, Long)))
    case Share(share) => HelloLayout.Share(share)
    case Unknown(_) => Octets([])
  }

  lemma ServerDataLaidOut(e: SH.Extension)
    requires SH.ExtensionSane(e)
    ensures SH.Body(e) == Render(ServerData(e))
  {
    match e
    case Flag(_) =>
    case Vector(code, data) => ServerVectorData(code, data);
    case Number(code, n) => NumberData(code, n);
    case Protocol(protocol) => ProtocolData(protocol);
    case Timestamps(scts) => TimestampsData(scts);
    case Share(share) => ShareLaidOut(share);
  }

  predicate ServerStrict(code: u16) {
    code in {5, 11, 16, 18, 35, 41, 43, 44, 51, 0xff01}
  }

  lemma NumberWritten(code: u16, data: bytes)
    requires SH.DecodeNumber(code, data).Some?
    ensures SH.Body(SH.DecodeNumber(code, data).value) == data
  {
    UintRead(data, 2);
    var (n, rest) := ReadU16(data).value;
    assert Be(n, 2) + rest == Be(n, 2);
  }

  lemma ShareWritten(data: bytes)
    requires SH.DecodeShare(data).Some?
    ensures SH.Body(SH.DecodeShare(data).value) == data
  {
    if |data| == 2 {
      NumberWritten(51, data);
    } else {
      UintRead(data, 2);
      var (group, rest) := ReadU16(data).value;
      PrefixedRead(rest, 2);
      var (key, last) := ReadPrefixed(rest, 2).value;
      assert Prefixed(key, 2) + last == Prefixed(key, 2);
    }
  }

  lemma ProtocolWritten(data: bytes)
    requires SH.DecodeProtocol(data).Some?
    ensures var e := SH.DecodeProtocol(data).value; SH.Body(e) == data && 0 < |e.protocol| < 0x100
  {
    PowersOf256();
    PrefixedRead(data, 2);
    var (list, rest) := ReadPrefixed(data, 2).value;
    assert Prefixed(list, 2) + rest == Prefixed(list, 2);
    PrefixedRead(list, 1);
    var (protocol, last) := ReadPrefixed(list, 1).value;
    assert Prefixed(protocol, 1) + last == Prefixed(protocol, 1);
  }

  lemma ServerVectorWritten(code: u16, data: bytes)
    requires SH.DecodeVectorBody(code, data).Some?
    ensures var e := SH.DecodeVectorBody(code, data).value; SH.Body(e) == data && |e.data| < Pow256(SH.Width(code))
  {
    PrefixedRead(data, SH.Width(code));
    var (b, rest) := ReadPrefixed(data, SH.Width(code)).value;
    assert Prefixed(b, SH.Width(code)) + rest == Prefixed(b, SH.Width(code));
  }

  lemma ServerAccepted(code: u16, data: bytes)
    requires ServerStrict(code) && |data| < 0x1_0000 && SH.DecodeBody(code, data).Some?
    ensures var e := SH.DecodeBody(code, data).value;
            SH.Body(e) == data && SH.Code(e) == code && SH.ExtensionSane(e) && SH.ExtensionFits(e) && (e.Number? ==> |data| == 2)
  {
    if SH.IsVector(code) {
      ServerVectorWritten(code, data);
    } else if code == 16 {
      ProtocolWritten(data);
    } else if code == 18 {
      ListDecoded(data, 2, Vectors(2));
    } else if code == 51 {
      ShareWritten(data);
    } else if SH.IsNumber(code) {
      NumberWritten(code, data);
    }
  }

  /** The extensions of a ServerHello are all read strictly; a key_share of two octets is that of a retry. */
  lemma ServerBodyReadExactly(code: u16, data: bytes, e: SH.Extension)
    requires ServerStrict(code) && |data| < 0x1_0000
    ensures SH.DecodeBody(code, data) == Some(e) <==>
      SH.Code(e) == code && SH.ExtensionFits(e) && SH.ExtensionSane(e) && data == Render(ServerData(e))
  {
    if SH.DecodeBody(code, data) == Some(e) {
      ServerAccepted(code, data);
      ServerDataLaidOut(e);
    } else if SH.Code(e) == code && SH.ExtensionFits(e) && SH.ExtensionSane(e) && data == Render(ServerData(e)) {
      ServerDataLaidOut(e);
      SH.BodyRoundTrip(e);
    }
  }
}
