/**
 * handshake_messages.go: the clientHelloMsg object with its cached encoding, and the patching of PSK
 * binders in place.
 */
module Binders {
  import opened Bytes
  import opened Wire
  import opened HelloParts
  import opened Extensions
  import opened ClientHello
  import opened ClientHelloCodec

  /** The encoding of a binder list, with its length: the end of a hello that offers a PSK. */
  function BinderBytes(binders: seq<bytes>): bytes {
    EncodeList(binders, 2, Vectors(1))
  }

  function WithBinders(m: Hello, binders: seq<bytes>): Hello {
    m.(modern := m.modern.(pskBinders := binders))
  }

  predicate SameLengths(a: seq<bytes>, b: seq<bytes>) {
    |a| == |b| && forall i :: 0 <= i < |a| ==> |a[i]| == |b[i]|
  }

  lemma {:induction false} SameSize(a: seq<bytes>, b: seq<bytes>)
    requires SameLengths(a, b)
    ensures |Written(a, Vectors(1))| == |Written(b, Vectors(1))|
  {
    if a != [] {
      assert SameLengths(a[1..], b[1..]);
      SameSize(a[1..], b[1..]);
    }
  }

  /** What marshalWithoutBinders adds up. */
  function BindersLength(binders: seq<bytes>): nat {
    if binders == [] then 2 else 1 + |binders[0]| + BindersLength(binders[1..])
  }

  lemma {:induction false} BindersLengthExact(binders: seq<bytes>)
    ensures BindersLength(binders) == |BinderBytes(binders)|
  {
    if binders != [] {
      BindersLengthExact(binders[1..]);
    }
  }

  lemma {:induction false} BindersLengthStep(binders: seq<bytes>, i: nat)
    requires i < |binders|
    ensures BindersLength(binders[i..]) == 1 + |binders[i]| + BindersLength(binders[i + 1..])
  {
    assert binders[i..][1..] == binders[i + 1..];
  }

  /** Two encodings that differ only in their ends. */
  ghost predicate DifferAtEnd(x: bytes, y: bytes, common: bytes, a: bytes, b: bytes) {
    x == common + a && y == common + b && |a| == |b|
  }

  lemma PreSharedKeyDiffers(identities: seq<PskIdentity>, a: seq<bytes>, b: seq<bytes>) returns (common: bytes)
    requires SameLengths(a, b)
    ensures DifferAtEnd(WriteRaw(RawExtension(EXTENSION_PRE_SHARED_KEY, EncodePreSharedKey(identities, a))),
                        WriteRaw(RawExtension(EXTENSION_PRE_SHARED_KEY, EncodePreSharedKey(identities, b))),
                        common, BinderBytes(a), BinderBytes(b))
  {
    SameSize(a, b);
    var ids := EncodeList(identities, 2, Identities());
    var n := |ids| + |BinderBytes(a)|;
    common := Be(EXTENSION_PRE_SHARED_KEY, 2) + (Be(n, 2) + ids);
    Regroup(EXTENSION_PRE_SHARED_KEY, n, ids, BinderBytes(a));
    Regroup(EXTENSION_PRE_SHARED_KEY, n, ids, BinderBytes(b));
  }

  lemma Regroup(code: u16, n: nat, ids: bytes, binders: bytes)
    requires n == |ids| + |binders|
    ensures WriteRaw(RawExtension(code, ids + binders)) == (Be(code, 2) + (Be(n, 2) + ids)) + binders
  {
  }

  lemma PrefixDiffers(prefix: bytes, x: bytes, y: bytes, common: bytes, a: bytes, b: bytes)
    requires DifferAtEnd(x, y, common, a, b)
    ensures DifferAtEnd(prefix + x, prefix + y, prefix + common, a, b)
  {
  }

  lemma PrefixedDiffers(x: bytes, y: bytes, w: nat, common: bytes, a: bytes, b: bytes)
    requires DifferAtEnd(x, y, common, a, b)
    ensures DifferAtEnd(Prefixed(x, w), Prefixed(y, w), Be(|x|, w) + common, a, b)
  {
  }

  lemma SameFields(m: Hello, binders: seq<bytes>, k: nat)
    requires m.modern.pskIdentities != [] && k < FIELDS
    ensures k < FIELDS - 1 ==> Field(m, k) == Field(WithBinders(m, binders), k)
    ensures k == FIELDS - 1 ==> Field(m, k) == Some(PreSharedKey(m.modern.pskIdentities, m.modern.pskBinders))
  {
  }

  lemma FieldsDifferAtEnd<M, E>(schema: Schema<M, E>, f: Fields<E>, g: Fields<E>, n: nat, inner: bytes, a: bytes, b: bytes) returns (common: bytes)
    requires n > 0 && forall j :: 0 <= j < n - 1 ==> f(j) == g(j)
    requires DifferAtEnd(EncodeField(schema, f(n - 1)), EncodeField(schema, g(n - 1)), inner, a, b)
    ensures DifferAtEnd(ExtensionBytes(schema, f, 0, n), ExtensionBytes(schema, g, 0, n), common, a, b)
  {
    var front := AgreeBeforeLast(schema, f, g, 0, n);
    PrefixDiffers(front, EncodeField(schema, f(n - 1)), EncodeField(schema, g(n - 1)), inner, a, b);
    common := front + inner;
  }

  lemma LastFieldsDiffer(m: Hello, binders: seq<bytes>) returns (inner: bytes)
    requires m.modern.pskIdentities != [] && SameLengths(m.modern.pskBinders, binders)
    ensures DifferAtEnd(EncodeField(ClientSchema(), Field(m, FIELDS - 1)), EncodeField(ClientSchema(), Field(WithBinders(m, binders), FIELDS - 1)),
                        inner, BinderBytes(m.modern.pskBinders), BinderBytes(binders))
  {
    inner := PreSharedKeyDiffers(m.modern.pskIdentities, m.modern.pskBinders, binders);
  }

  lemma ExtensionsDiffer(m: Hello, binders: seq<bytes>) returns (common: bytes)
    requires m.modern.pskIdentities != [] && SameLengths(m.modern.pskBinders, binders)
    ensures DifferAtEnd(ExtensionsOf(m), ExtensionsOf(WithBinders(m, binders)), common, BinderBytes(m.modern.pskBinders), BinderBytes(binders))
  {
    var m1 := WithBinders(m, binders);
    forall j | 0 <= j < FIELDS - 1
      ensures FieldsOf(m)(j) == FieldsOf(m1)(j)
    {
      SameFields(m, binders, j);
    }
    var inner := LastFieldsDiffer(m, binders);
    common := FieldsDifferAtEnd(ClientSchema(), FieldsOf(m), FieldsOf(m1), FIELDS, inner, BinderBytes(m.modern.pskBinders), BinderBytes(binders));
  }

  /** Changing binders without changing their lengths changes only the end of the encoding. */
  lemma HelloDiffersInBinders(m: Hello, binders: seq<bytes>) returns (common: bytes)
    requires m.modern.pskIdentities != [] && SameLengths(m.modern.pskBinders, binders)
    ensures DifferAtEnd(HelloBytes(m), HelloBytes(WithBinders(m, binders)), common, BinderBytes(m.modern.pskBinders), BinderBytes(binders))
  {
    common := ExtensionsDiffer(m, binders);
    common := WrappedDiffer(FixedBytes(m), ExtensionsOf(m), ExtensionsOf(WithBinders(m, binders)), common,
                            BinderBytes(m.modern.pskBinders), BinderBytes(binders));
  }

  lemma WrappedDiffer(fixed: bytes, x: bytes, y: bytes, inner: bytes, a: bytes, b: bytes) returns (common: bytes)
    requires DifferAtEnd(x, y, inner, a, b) && |a| >= 2
    ensures DifferAtEnd([TYPE_CLIENT_HELLO] + Prefixed(fixed + ExtensionBlock(x), 3), [TYPE_CLIENT_HELLO] + Prefixed(fixed + ExtensionBlock(y), 3), common, a, b)
  {
    PrefixedDiffers(x, y, 2, inner, a, b);
    common := Be(|x|, 2) + inner;
    PrefixDiffers(fixed, Prefixed(x, 2), Prefixed(y, 2), common, a, b);
    common := fixed + common;
    var (body, body1) := (fixed + Prefixed(x, 2), fixed + Prefixed(y, 2));
    PrefixedDiffers(body, body1, 3, common, a, b);
    common := Be(|body|, 3) + common;
    PrefixDiffers([TYPE_CLIENT_HELLO], Prefixed(body, 3), Prefixed(body1, 3), common, a, b);
    common := [TYPE_CLIENT_HELLO] + common;
  }

  predicate OffersPsk(m: Hello) {
    m.modern.pskIdentities != []
  }

  lemma OnlyPskOffers(m: Hello, code: u16, body: bytes)
    ensures OnlyFinalTouches(ClientSchema(), OffersPsk, m, code, body)
  {
    if DecodeBody(code, body).Some? {
      DecodedIsSane(code, body);
    }
  }

  lemma PskFound(s: bytes, m: Hello) returns (m1: Hello, x: RawExtension)
    requires !OffersPsk(m) && ParseExtensions(ClientSchema(), s, {}, m).Some? && OffersPsk(ParseExtensions(ClientSchema(), s, {}, m).value)
    ensures EndsWith(s, ClientSchema().raw.write(x)) && MustBeLast(x.code) && DecodeBody(x.code, x.body).Some?
    ensures ParseExtensions(ClientSchema(), s, {}, m).value == Assign(m1, DecodeBody(x.code, x.body).value)
  {
    forall m, code, body
      ensures OnlyFinalTouches(ClientSchema(), OffersPsk, m, code, body)
    {
      OnlyPskOffers(m, code, body);
    }
    m1, x := FinalIsEnd(ClientSchema(), OffersPsk, s, {}, m);
  }

  lemma PskAssigned(m: Hello, body: bytes)
    requires DecodeBody(EXTENSION_PRE_SHARED_KEY, body).Some?
    ensures var e := DecodePreSharedKey(body);
            && e.Some? && e.value.PreSharedKey?
            && Assign(m, DecodeBody(EXTENSION_PRE_SHARED_KEY, body).value).modern.pskBinders == e.value.binders
  {
  }

  /** An accepted extension block that offers a PSK ends with the encoding of the binders, whoever wrote it. */
  lemma BlockEndsInBinders(s: bytes, m: Hello)
    requires !OffersPsk(m) && ParseExtensions(ClientSchema(), s, {}, m).Some? && OffersPsk(ParseExtensions(ClientSchema(), s, {}, m).value)
    ensures EndsInBinders(s, ParseExtensions(ClientSchema(), s, {}, m).value.modern.pskBinders)
  {
    var m1, x := PskFound(s, m);
    PskAssigned(m1, x.body);
    PskAtEnd(s, x.body);
  }

  /** A message ends with these binders, and each has a length that fits its prefix. */
  ghost predicate EndsInBinders(s: bytes, binders: seq<bytes>) {
    EndsWith(s, BinderBytes(binders)) && AllShort(binders)
  }

  lemma PskAtEnd(s: bytes, body: bytes)
    requires EndsWith(s, WriteRaw(RawExtension(EXTENSION_PRE_SHARED_KEY, body))) && DecodePreSharedKey(body).Some?
    ensures DecodePreSharedKey(body).value.PreSharedKey? && EndsInBinders(s, DecodePreSharedKey(body).value.binders)
  {
    BodyEndsInBinders(body);
    BodyBindersShort(body);
    EndsWithin(s, WriteRaw(RawExtension(EXTENSION_PRE_SHARED_KEY, body)), BinderBytes(DecodePreSharedKey(body).value.binders));
  }

  lemma BodyEndsInBinders(body: bytes)
    requires DecodePreSharedKey(body).Some?
    ensures DecodePreSharedKey(body).value.PreSharedKey?
    ensures EndsWith(WriteRaw(RawExtension(EXTENSION_PRE_SHARED_KEY, body)), BinderBytes(DecodePreSharedKey(body).value.binders))
  {
    DecodedPskIsSane(body);
    var e := DecodePreSharedKey(body).value;
    var ids := EncodeList(e.identities, 2, Identities());
    Regroup(EXTENSION_PRE_SHARED_KEY, |body|, ids, BinderBytes(e.binders));
    EndIsEnd(Be(EXTENSION_PRE_SHARED_KEY, 2) + (Be(|body|, 2) + ids), BinderBytes(e.binders));
  }

  /** So the truncation marshalWithoutBinders computes from a received hello cuts exactly the binders off. */
  lemma ReceivedEndsInBinders(data: bytes)
    requires Unmarshal(data).Some? && OffersPsk(Unmarshal(data).value)
    ensures EndsInBinders(data, Unmarshal(data).value.modern.pskBinders)
  {
    var (m, rest) := ParseFixed(data[4..]).value;
    FixedIsPrefix(data[4..]);
    EndsWithin(data, data[4..], rest);
    BareOffersNothing(data[4..]);
    BlockAtEnd(data, rest, m);
  }

  lemma BareOffersNothing(s: bytes)
    requires ParseFixed(s).Some?
    ensures !OffersPsk(ParseFixed(s).value.0)
  {
  }

  lemma BlockAtEnd(data: bytes, rest: bytes, m: Hello)
    requires EndsWith(data, rest) && !OffersPsk(m)
    requires ParseBlock(ClientSchema(), m, rest).Some? && OffersPsk(ParseBlock(ClientSchema(), m, rest).value)
    ensures EndsInBinders(data, ParseBlock(ClientSchema(), m, rest).value.modern.pskBinders)
  {
    var block := DecodeVector(rest, 2).value;
    BlockEndsInBinders(block, m);
    VectorIsEnd(rest, 2);
    EndsWithin(data, rest, block);
    EndsWithin(data, block, BinderBytes(ParseBlock(ClientSchema(), m, rest).value.modern.pskBinders));
  }

  lemma VectorIsEnd(s: bytes, w: nat)
    requires DecodeVector(s, w).Some?
    ensures EndsWith(s, DecodeVector(s, w).value)
  {
  }

  lemma FixedIsPrefix(s: bytes)
    requires ParseFixed(s).Some?
    ensures EndsWith(s, ParseFixed(s).value.1)
  {
    var tail := ReadU16(s).value.1;
    var (sessionId, afterId) := ReadPrefixed(tail[32..], 1).value;
    IsSuffix(tail[32..], 1);
    EndsWithin(s, tail[32..], afterId);
    SuitesArePrefix(ReadU16(s).value.0, tail[..32], sessionId, afterId);
    EndsWithin(s, afterId, ParseFixed(s).value.1);
  }

  lemma SuitesArePrefix(vers: u16, random: bytes, sessionId: bytes, s: bytes)
    requires ParseSuites(vers, random, sessionId, s).Some?
    ensures EndsWith(s, ParseSuites(vers, random, sessionId, s).value.1)
  {
    var tail := ReadPrefixed(s, 2).value.1;
    IsSuffix(s, 2);
    IsSuffix(tail, 1);
    EndsWithin(s, tail, ReadPrefixed(tail, 1).value.1);
  }

  lemma IsSuffix(s: bytes, w: nat)
    requires ReadPrefixed(s, w).Some?
    ensures EndsWith(s, ReadPrefixed(s, w).value.1)
  {
  }

  lemma LastFieldFits(identities: seq<PskIdentity>, a: seq<bytes>, b: seq<bytes>)
    requires SameLengths(a, b) && ExtensionFits(PreSharedKey(identities, a))
    ensures ExtensionFits(PreSharedKey(identities, b))
  {
    SameSize(a, b);
  }

  lemma StillFits(m: Hello, binders: seq<bytes>)
    requires m.modern.pskIdentities != [] && SameLengths(m.modern.pskBinders, binders) && Fits(m)
    ensures Fits(WithBinders(m, binders))
  {
    var m1 := WithBinders(m, binders);
    var common := ExtensionsDiffer(m, binders);
    forall k | 0 <= k < FIELDS
      ensures FieldFits(Field(m1, k))
    {
      assert FieldFits(Field(m, k));
      SameFields(m, binders, k);
      SameFields(m1, binders, k);
      if k == FIELDS - 1 {
        LastFieldFits(m.modern.pskIdentities, m.modern.pskBinders, binders);
      }
    }
  }

  class ClientHelloMsg {
    var m: Hello
    var raw: array?<byte>

    /** The cached encoding, if any, ends with the binders the fields hold. */
    ghost predicate Coherent()
      reads this, raw
    {
      raw != null ==> EndsInBinders(raw[..], m.modern.pskBinders)
    }

    constructor (m: Hello)
      ensures this.m == m && raw == null
    {
      this.m := m;
      raw := null;
    }

    /** unmarshal: the object takes the received octets as its encoding. */
    method Unmarshal(data: array<byte>) returns (ok: bool)
      modifies this
      ensures raw == data && ok == ClientHelloCodec.Unmarshal(data[..]).Some?
      ensures ok ==> m == ClientHelloCodec.Unmarshal(data[..]).value
      ensures ok && m.modern.pskIdentities != [] ==> Coherent()
    {
      raw := data;
      var r := ParseMessage(data[..]);
      if r.None? {
        return false;
      }
      m := r.value;
      ReceivedIsCoherent(data[..], m);
      return true;
    }

    /** marshal: built once, then cached. */
    method Marshal() returns (out: array?<byte>)
      modifies this`raw
      ensures out == raw
      ensures old(raw) != null ==> raw == old(raw)
      ensures old(raw) == null ==> (raw != null <==> Fits(m)) && (raw != null ==> fresh(raw) && raw[..] == HelloBytes(m))
    {
      if raw == null && Fits(m) {
        raw := Stored(HelloBytes(m));
      }
      return raw;
    }

    method MarshalWithoutBinders() returns (r: Option<bytes>)
      requires m.modern.pskIdentities != [] && Coherent()
      modifies this`raw
      ensures Coherent() && (raw != null <==> old(raw) != null || Fits(m)) && (old(raw) != null ==> raw == old(raw))
      ensures r.Some? <==> raw != null
      ensures r.Some? ==> r.value + BinderBytes(m.modern.pskBinders) == raw[..]
      ensures old(raw) == null && raw != null ==> fresh(raw) && raw[..] == HelloBytes(m)
    {
      var length := SumBinderLengths(m.modern.pskBinders);
      if raw == null && Fits(m) {
        BuiltEndsInBinders(m);
      }
      var full := Marshal();
      if full == null {
        return None;
      }
      var front := CutEnd(full, length, BinderBytes(m.modern.pskBinders));
      return Some(front);
    }

    /** updateBinders: new binders of the same lengths, patched into the cached encoding. */
    method UpdateBinders(binders: seq<bytes>) returns (ok: bool)
      requires m.modern.pskIdentities != [] && Coherent()
      modifies this, raw
      ensures Coherent() && raw == old(raw)
      ensures ok <==> SameLengths(binders, old(m).modern.pskBinders)
      ensures m == if ok then WithBinders(old(m), binders) else old(m)
      ensures !ok && raw != null ==> raw[..] == old(raw[..])
      ensures ok && raw != null ==>
                var n := raw.Length - |BinderBytes(old(m).modern.pskBinders)|;
                raw[..] == old(raw[..])[..n] + BinderBytes(binders)
      ensures ok && raw != null && Fits(old(m)) && old(raw[..]) == HelloBytes(old(m)) ==> Fits(m) && raw[..] == HelloBytes(m)
    {
      var current := m.modern.pskBinders;
      if |binders| != |current| {
        return false;
      }
      for i := 0 to |current|
        invariant forall j :: 0 <= j < i ==> |binders[j]| == |current[j]|
      {
        if |binders[i]| != |current[i]| {
          return false;
        }
      }
      ghost var was := m;
      m := WithBinders(m, binders);
      if raw != null {
        PatchBinders(raw, was.modern.pskBinders, binders);
        PatchedIsFresh(was, binders, old(raw[..]), raw[..]);
      }
      return true;
    }
  }

  lemma ReceivedIsCoherent(data: bytes, m: Hello)
    requires Unmarshal(data) == Some(m)
    ensures m.modern.pskIdentities != [] ==> EndsInBinders(data, m.modern.pskBinders)
  {
    if m.modern.pskIdentities != [] {
      ReceivedEndsInBinders(data);
    }
  }

  /** Writing the new binders over the old ones at the end of the cached encoding. */
  method PatchBinders(raw: array<byte>, ghost current: seq<bytes>, binders: seq<bytes>)
    requires SameLengths(current, binders) && EndsInBinders(raw[..], current)
    modifies raw
    ensures |BinderBytes(binders)| == |BinderBytes(current)| <= raw.Length
    ensures raw[..] == old(raw[..])[..raw.Length - |BinderBytes(binders)|] + BinderBytes(binders)
    ensures EndsInBinders(raw[..], binders)
  {
    SameSize(current, binders);
    PatchEnd(raw, BinderBytes(binders));
    EndIsEnd(old(raw[..])[..raw.Length - |BinderBytes(binders)|], BinderBytes(binders));
  }

  lemma BodyBindersShort(body: bytes)
    requires DecodePreSharedKey(body).Some?
    ensures DecodePreSharedKey(body).value.PreSharedKey? && AllShort(DecodePreSharedKey(body).value.binders)
  {
    PowersOf256();
    ListDecoded(ReadPrefixed(body, 2).value.1, 2, Vectors(1));
  }

  lemma BuiltEndsInBinders(m: Hello)
    requires m.modern.pskIdentities != [] && Fits(m)
    ensures EndsInBinders(HelloBytes(m), m.modern.pskBinders)
  {
    BindersFit(m);
    var common := HelloDiffersInBinders(m, m.modern.pskBinders);
    EndIsEnd(common, BinderBytes(m.modern.pskBinders));
  }

  lemma BindersFit(m: Hello)
    requires m.modern.pskIdentities != [] && Fits(m)
    ensures AllShort(m.modern.pskBinders)
  {
    assert FieldFits(Field(m, FIELDS - 1));
    LastField(m);
  }

  lemma LastField(m: Hello)
    requires m.modern.pskIdentities != [] && FieldFits(Field(m, FIELDS - 1))
    ensures AllShort(m.modern.pskBinders)
  {
    var e := PreSharedKey(m.modern.pskIdentities, m.modern.pskBinders);
    assert Field(m, FIELDS - 1) == Some(e);
    assert ExtensionFits(e);
  }

  method SumBinderLengths(binders: seq<bytes>) returns (length: nat)
    ensures length == |BinderBytes(binders)|
  {
    length := 2;
    for i := 0 to |binders|
      invariant length + BindersLength(binders[i..]) == 2 + BindersLength(binders)
    {
      BindersLengthStep(binders, i);
      length := length + 1 + |binders[i]|;
    }
    assert binders[|binders|..] == [];
    BindersLengthExact(binders);
  }

  method Stored(b: bytes) returns (a: array<byte>)
    ensures fresh(a) && a[..] == b
  {
    a := new byte[|b|](i requires 0 <= i < |b| => b[i]);
  }

  method CutEnd(a: array<byte>, n: nat, ghost tail: bytes) returns (front: bytes)
    requires EndsWith(a[..], tail) && n == |tail|
    ensures front + tail == a[..]
  {
    SplitEnd(a[..], tail);
    front := a[..a.Length - n];
  }

  /** Overwriting the end of an array, octet by octet. */
  method PatchEnd(a: array<byte>, tail: bytes)
    requires |tail| <= a.Length
    modifies a
    ensures a[..] == old(a[..])[..a.Length - |tail|] + tail
  {
    var n := a.Length - |tail|;
    for i := 0 to |tail|
      invariant a[..n + i] == old(a[..])[..n] + tail[..i]
    {
      a[n + i] := tail[i];
      assert tail[..i + 1] == tail[..i] + [tail[i]];
    }
    assert a[..] == a[..n + |tail|];
  }

  lemma PatchedIsFresh(m: Hello, binders: seq<bytes>, before: bytes, after: bytes)
    requires m.modern.pskIdentities != [] && SameLengths(m.modern.pskBinders, binders)
    requires |BinderBytes(binders)| <= |before| && after == before[..|before| - |BinderBytes(binders)|] + BinderBytes(binders)
    ensures Fits(m) && before == HelloBytes(m) ==> Fits(WithBinders(m, binders)) && after == HelloBytes(WithBinders(m, binders))
  {
    if Fits(m) && before == HelloBytes(m) {
      SameSize(m.modern.pskBinders, binders);
      StillFits(m, binders);
      var common := HelloDiffersInBinders(m, binders);
      assert before[..|before| - |BinderBytes(binders)|] == common;
    }
  }

  /** The extension loop of unmarshal. */
  method ReadExtensions(block: bytes, start: Hello) returns (r: Option<Hello>)
    ensures r == ParseExtensions(ClientSchema(), block, {}, start)
  {
    var left: bytes, seen: set<u16>, m := block, {}, start;
    while left != []
      invariant ParseExtensions(ClientSchema(), left, seen, m) == ParseExtensions(ClientSchema(), block, {}, start)
      decreases |left|
    {
      var raw := ReadRaw(left);
      if raw.None? {
        return None;
      }
      var (x, rest) := raw.value;
      if x.code in seen {
        return None;
      }
      if x.code == EXTENSION_PRE_SHARED_KEY && rest != [] {
        return None;
      }
      var e := ReadExtension(x.code, x.body);
      if e.None? {
        return None;
      }
      left, seen, m := rest, seen + {x.code}, Assign(m, e.value);
    }
    return Some(m);
  }

  method ParseMessage(data: bytes) returns (r: Option<Hello>)
    ensures r == Unmarshal(data)
  {
    if |data| < 4 {
      return None;
    }
    var fixed := ParseFixed(data[4..]);
    if fixed.None? {
      return None;
    }
    var (m, rest) := fixed.value;
    if rest == [] {
      return Some(m);
    }
    var block := DecodeVector(rest, 2);
    if block.None? {
      return None;
    }
    r := ReadExtensions(block.value, m);
  }
}
