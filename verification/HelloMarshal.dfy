/**
 * handshake_messages.go: when marshal succeeds. A message is refused exactly if some part of it overflows the
 * length its layout provides; otherwise the layout is what goes on the wire and what unmarshal reads.
 */
module HelloMarshal {
  import opened Bytes
  import opened Wire
  import opened HelloParts
  import opened Extensions
  import opened HelloLayout
  import CH = ClientHello
  import Codec = ClientHelloCodec
  import SH = ServerHello

  predicate ShortItems(vs: seq<bytes>) {
    forall i :: 0 <= i < |vs| ==> |vs[i]| <= 255
  }

  /** The fields with a length of one octet, and the block of extensions; the other lengths then fit too. */
  predicate ClientMeasures(m: CH.Hello) {
    var (c, x) := (m.common, m.modern);
    && |m.random| == 32 && |m.sessionId| <= 255 && |m.cipherSuites| <= 0x7fff && |m.compressionMethods| <= 255
    && |RenderAll(ClientExtensions(m))| <= 0xffff
    && CommonMeasures(m.common) && ModernMeasures(m.modern)
  }

  predicate CommonMeasures(c: CH.Common) {
    |c.supportedPoints| <= 255 && (c.secureRenegotiationSupported ==> |c.secureRenegotiation| <= 255) && ShortItems(c.alpnProtocols)
  }

  predicate ModernMeasures(x: CH.Modern) {
    |x.supportedVersions| <= 127 && |x.pskModes| <= 255 && (x.pskIdentities != [] ==> ShortItems(x.pskBinders))
  }

  lemma {:induction false} CodesTakeTwo(xs: seq<u16>)
    ensures |Written(xs, Codes())| == 2 * |xs|
  {
    if xs != [] {
      CodesTakeTwo(xs[1..]);
    }
  }

  /** A field is no longer than the block it is in. */
  lemma {:induction false} FieldWithin<M, E>(schema: Schema<M, E>, fields: Fields<E>, k: nat, j: nat, n: nat)
    requires k <= j < n
    ensures |EncodeField(schema, fields(j))| <= |ExtensionBytes(schema, fields, k, n)|
    decreases j - k
  {
    if k < j {
      FieldWithin(schema, fields, k + 1, j, n);
    }
  }

  lemma RawLength(code: u16, body: bytes)
    ensures |RawExtensions().write(RawExtension(code, body))| == 4 + |body|
  {
  }

  lemma ClientBodyWithin(m: CH.Hello, k: nat)
    requires k < 16 && Codec.Field(m, k).Some? && |Codec.ExtensionsOf(m)| < 0x1_0000
    ensures |CH.Body(Codec.Field(m, k).value)| < 0x1_0000
  {
    FieldWithin(Codec.ClientSchema(), Codec.FieldsOf(m), 0, k, 16);
    var e := Codec.Field(m, k).value;
    RawLength(CH.Code(e), CH.Body(e));
  }

  /** The lengths of one octet inside an extension are not overflowed. */
  predicate ShortInside(e: CH.Extension) {
    match e
    case CodeList(code, codes) => (code == 10 || code == 13 || code == 50) || (code == 43 && |codes| <= 127)
    case Vector(code, data) => code == 44 || |data| <= 255
    case Alpn(protocols) => ShortItems(protocols)
    case PreSharedKey(_, binders) => ShortItems(binders)
    case _ => true
  }

  /** Then, in a body short enough for its extension, nothing else can be. */
  lemma InnerFits(e: CH.Extension)
    requires |CH.Body(e)| < 0x1_0000 && ShortInside(e)
    ensures CH.ExtensionFits(e)
  {
    PowersOf256();
    if e.CodeList? {
      CodesTakeTwo(e.codes);
    }
  }

  lemma CommonShort(c: CH.Common, k: nat)
    requires k < 10 && CommonMeasures(c) && Codec.CommonField(c, k).Some?
    ensures ShortInside(Codec.CommonField(c, k).value)
  {
  }

  lemma ModernShort(x: CH.Modern, k: nat)
    requires 10 <= k < 16 && ModernMeasures(x) && Codec.ModernField(x, k).Some?
    ensures ShortInside(Codec.ModernField(x, k).value)
  {
  }

  lemma ClientFieldFits(m: CH.Hello, k: nat, f: Option<CH.Extension>)
    requires k < 16 && f == Codec.Field(m, k) && CommonMeasures(m.common) && ModernMeasures(m.modern) && |Codec.ExtensionsOf(m)| < 0x1_0000
    ensures Codec.FieldFits(f)
  {
    if f.Some? {
      if k < 10 {
        CommonShort(m.common, k);
      } else {
        ModernShort(m.modern, k);
      }
      ClientBodyWithin(m, k);
      InnerFits(f.value);
    }
  }

  /** Conversely, a field that fits overflows none of them. */
  lemma FitsInside(e: CH.Extension)
    requires CH.ExtensionFits(e) && (e.CodeList? ==> CH.IsCodeList(e.listCode)) && (e.Vector? ==> CH.IsVector(e.vectorCode))
    ensures ShortInside(e)
  {
    PowersOf256();
    if e.CodeList? {
      CodesTakeTwo(e.codes);
    }
  }

  lemma CommonFitting(c: CH.Common)
    requires Codec.FieldFits(Codec.CommonField(c, 3)) && Codec.FieldFits(Codec.CommonField(c, 7)) && Codec.FieldFits(Codec.CommonField(c, 8))
    ensures CommonMeasures(c)
  {
    FitsIfPresent(Codec.CommonField(c, 3));
    FitsIfPresent(Codec.CommonField(c, 7));
    FitsIfPresent(Codec.CommonField(c, 8));
  }

  lemma ModernFitting(x: CH.Modern)
    requires Codec.FieldFits(Codec.ModernField(x, 10)) && Codec.FieldFits(Codec.ModernField(x, 14)) && Codec.FieldFits(Codec.ModernField(x, 15))
    ensures ModernMeasures(x)
  {
    FitsIfPresent(Codec.ModernField(x, 10));
    FitsIfPresent(Codec.ModernField(x, 14));
    FitsIfPresent(Codec.ModernField(x, 15));
  }

  lemma FitsIfPresent(f: Option<CH.Extension>)
    requires Codec.FieldFits(f)
    requires f.Some? ==> (f.value.CodeList? ==> CH.IsCodeList(f.value.listCode)) && (f.value.Vector? ==> CH.IsVector(f.value.vectorCode))
    ensures f.Some? ==> ShortInside(f.value)
  {
    if f.Some? {
      FitsInside(f.value);
    }
  }

  lemma ClientFitsExactly(m: CH.Hello)
    ensures Codec.Fits(m) <==> ClientMeasures(m)
  {
    ClientExtensionsLaidOut(m);
    CodesTakeTwo(m.cipherSuites);
    if Codec.Fits(m) {
      assert Codec.FieldFits(Codec.Field(m, 3)) && Codec.FieldFits(Codec.Field(m, 7)) && Codec.FieldFits(Codec.Field(m, 8));
      CommonFitting(m.common);
      assert Codec.FieldFits(Codec.Field(m, 10)) && Codec.FieldFits(Codec.Field(m, 14)) && Codec.FieldFits(Codec.Field(m, 15));
      ModernFitting(m.modern);
    }
    if ClientMeasures(m) {
      forall k | 0 <= k < 16
        ensures Codec.FieldFits(Codec.Field(m, k))
      {
        ClientFieldFits(m, k, Codec.Field(m, k));
      }
    }
  }

  /**
   * A ClientHello is marshaled exactly if no length overflows, into the layout of section 4.1.2 of RFC 8446;
   * and that layout is read back as the message, for every message unmarshal could yield.
   */
  lemma ClientHelloOnTheWire(m: CH.Hello)
    ensures Codec.Marshal(m) == if ClientMeasures(m) then Some(Render(ClientLayout(m))) else None
    ensures ClientMeasures(m) && Codec.Sane(m) ==> Codec.Unmarshal(Render(ClientLayout(m))) == Some(m)
  {
    ClientFitsExactly(m);
    ClientHelloLaidOut(m);
    if Codec.Fits(m) && Codec.Sane(m) {
      Codec.HelloRoundTrip(m);
    }
  }

  predicate ServerMeasures(m: SH.Hello) {
    && |m.random| == 32 && |m.sessionId| <= 255 && |RenderAll(ServerExtensions(m))| <= 0xffff
    && (m.common.secureRenegotiationSupported ==> |m.common.secureRenegotiation| <= 255)
    && |m.common.alpnProtocol| <= 255 && |m.common.supportedPoints| <= 255
  }

  lemma ServerBodyWithin(m: SH.Hello, k: nat)
    requires k < 11 && SH.Field(m, k).Some? && |SH.ExtensionsOf(m)| < 0x1_0000
    ensures |SH.Body(SH.Field(m, k).value)| < 0x1_0000
  {
    FieldWithin(SH.ServerSchema(), SH.FieldsOf(m), 0, k, 11);
    var e := SH.Field(m, k).value;
    RawLength(SH.Code(e), SH.Body(e));
  }

  predicate ServerShortInside(e: SH.Extension) {
    match e
    case Vector(code, data) => code == 44 || |data| <= 255
    case Protocol(protocol) => |protocol| <= 255
    case _ => true
  }

  lemma ServerInnerFits(e: SH.Extension)
    requires |SH.Body(e)| < 0x1_0000 && ServerShortInside(e)
    ensures SH.ExtensionFits(e)
  {
    PowersOf256();
  }

  lemma ServerShort(m: SH.Hello, k: nat)
    requires k < 11 && ServerMeasures(m) && SH.Field(m, k).Some?
    ensures ServerShortInside(SH.Field(m, k).value)
  {
  }

  lemma ServerFieldFits(m: SH.Hello, k: nat, f: Option<SH.Extension>)
    requires k < 11 && f == SH.Field(m, k) && ServerMeasures(m) && |SH.ExtensionsOf(m)| < 0x1_0000
    ensures SH.FieldFits(f)
  {
    if f.Some? {
      ServerShort(m, k);
      ServerBodyWithin(m, k);
      ServerInnerFits(f.value);
    }
  }

  lemma ServerFitting(m: SH.Hello)
    requires forall k :: 0 <= k < 11 ==> SH.FieldFits(SH.Field(m, k))
    ensures m.common.secureRenegotiationSupported ==> |m.common.secureRenegotiation| <= 255
    ensures |m.common.alpnProtocol| <= 255 && |m.common.supportedPoints| <= 255
  {
    PowersOf256();
    assert SH.FieldFits(SH.Field(m, 2)) && SH.FieldFits(SH.Field(m, 3)) && SH.FieldFits(SH.Field(m, 10));
  }

  lemma ServerFitsExactly(m: SH.Hello)
    ensures SH.Fits(m) <==> ServerMeasures(m)
  {
    ServerExtensionsLaidOut(m);
    if SH.Fits(m) {
      ServerFitting(m);
    }
    if ServerMeasures(m) {
      forall k | 0 <= k < 11
        ensures SH.FieldFits(SH.Field(m, k))
      {
        ServerFieldFits(m, k, SH.Field(m, k));
      }
    }
  }

  /** The same for the ServerHello and the HelloRetryRequest, in the layout of section 4.1.3. */
  lemma ServerHelloOnTheWire(m: SH.Hello)
    ensures SH.Marshal(m) == if ServerMeasures(m) then Some(Render(ServerLayout(m))) else None
    ensures ServerMeasures(m) && SH.Sane(m) ==> SH.Unmarshal(Render(ServerLayout(m))) == Some(m)
  {
    ServerFitsExactly(m);
    ServerHelloLaidOut(m);
    if SH.Fits(m) && SH.Sane(m) {
      SH.HelloRoundTrip(m);
    }
  }
}
