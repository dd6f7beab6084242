/** key_schedule.go: the TLS 1.3 key schedule over uninterpreted hash, HMAC and HKDF functions. */
module KeySchedule {
  import opened Bytes
  import opened Wire

  datatype Label =
    | ResumptionBinder
    | ClientHandshakeTraffic
    | ServerHandshakeTraffic
    | ClientApplicationTraffic
    | ServerApplicationTraffic
    | ExporterMaster
    | ResumptionMaster
    | TrafficUpdate
    | Derived
    | FinishedKey
    | Resumption
    | WriteKey
    | WriteIv
    | ExporterValue

  function Text(l: Label): string {
    match l
    case ResumptionBinder => "res binder"
    case ClientHandshakeTraffic => "c hs traffic"
    case ServerHandshakeTraffic => "s hs traffic"
    case ClientApplicationTraffic => "c ap traffic"
    case ServerApplicationTraffic => "s ap traffic"
    case ExporterMaster => "exp master"
    case ResumptionMaster => "res master"
    case TrafficUpdate => "traffic upd"
    case Derived => "derived"
    case FinishedKey => "finished"
    case Resumption => "resumption"
    case WriteKey => "key"
    case WriteIv => "iv"
    case ExporterValue => "exporter"
  }

  lemma TextsDiffer(a: Label, b: Label)
    requires Text(a) == Text(b)
    ensures a == b
  {
    assert |Text(a)| == |Text(b)| && Text(a)[0] == Text(b)[0] && Text(a)[1] == Text(b)[1];
    assert |Text(a)| > 2 ==> Text(a)[2] == Text(b)[2];
  }

  /** ASCII text as octets. */
  function Octets(s: string): bytes {
    seq(|s|, i requires 0 <= i < |s| => Low(s[i] as int))
  }

  /** The HkdfLabel structure of section 7.1 of RFC 8446. */
  function HkdfLabel(text: string, context: bytes, length: nat): bytes {
    Be(length, 2) + (Prefixed(Octets("tls13 " + text), 1) + Prefixed(context, 1))
  }

  lemma OctetOf(n: nat)
    ensures Be(n, 1) == [Low(n)]
  {
    assert Be(n / 256, 0) == [];
  }

  /** That structure octet by octet: the length, "tls13 " with the label and the context, each after its own length. */
  lemma HkdfLabelOctets(text: string, context: bytes, length: nat)
    ensures HkdfLabel(text, context, length)
         == [Low(length / 256), Low(length)] + [Low(|text| + 6)] + [0x74, 0x6c, 0x73, 0x31, 0x33, 0x20] + Octets(text) + [Low(|context|)] + context
  {
    PairOf(length);
    OctetOf(|text| + 6);
    OctetOf(|context|);
    Labelled(text);
    Joined([Low(length / 256), Low(length)], [Low(|text| + 6)], TLS13_PREFIX, Octets(text), [Low(|context|)], context);
  }

  const TLS13_PREFIX: bytes := [0x74, 0x6c, 0x73, 0x31, 0x33, 0x20]

  lemma PairOf(n: nat)
    ensures Be(n, 2) == [Low(n / 256), Low(n)]
  {
    OctetOf(n / 256);
  }

  lemma Labelled(text: string)
    ensures Octets("tls13 " + text) == TLS13_PREFIX + Octets(text) && |Octets("tls13 " + text)| == |text| + 6
  {
    var whole := "tls13 " + text;
    assert whole[0] == 't' && whole[1] == 'l' && whole[2] == 's' && whole[3] == '1' && whole[4] == '3' && whole[5] == ' ';
    assert forall i :: 6 <= i < |whole| ==> whole[i] == text[i - 6];
  }

  lemma Joined(a: bytes, b: bytes, c: bytes, d: bytes, e: bytes, f: bytes)
    ensures a + ((b + (c + d)) + (e + f)) == a + b + c + d + e + f
  {
  }

  lemma HkdfLabelParts(text: string, context: bytes, length: nat)
    requires |text| < 249 && |context| < 0x100 && length < 0x1_0000
    ensures var info := HkdfLabel(text, context, length);
            && ReadUint(info, 2) == Some((length, Prefixed(Octets("tls13 " + text), 1) + Prefixed(context, 1)))
            && ReadPrefixed(ReadUint(info, 2).value.1, 1) == Some((Octets("tls13 " + text), Prefixed(context, 1)))
            && DecodeVector(Prefixed(context, 1), 1) == Some(context)
  {
    PowersOf256();
    ReadsUint(length, 2, Prefixed(Octets("tls13 " + text), 1) + Prefixed(context, 1));
    ReadsPrefixed(Octets("tls13 " + text), 1, Prefixed(context, 1));
    VectorRoundTrip(context, 1);
  }

  lemma OctetsInjective(s: string, t: string)
    requires Octets(s) == Octets(t) && Ascii(s) && Ascii(t)
    ensures s == t
  {
    assert |s| == |Octets(s)| == |t|;
    forall i | 0 <= i < |s|
      ensures s[i] == t[i]
    {
      assert Octets(s)[i] == Octets(t)[i];
      ByteRoundTrip(s[i] as int);
      ByteRoundTrip(t[i] as int);
    }
  }

  ghost predicate Ascii(s: string) {
    forall i :: 0 <= i < |s| ==> s[i] < 128 as char
  }

  /** Different labels, contexts or lengths never give the same HKDF input: the derivations are domain separated. */
  lemma HkdfLabelInjective(t1: string, c1: bytes, n1: nat, t2: string, c2: bytes, n2: nat)
    requires |t1| < 249 && |c1| < 0x100 && n1 < 0x1_0000 && Ascii(t1)
    requires |t2| < 249 && |c2| < 0x100 && n2 < 0x1_0000 && Ascii(t2)
    requires HkdfLabel(t1, c1, n1) == HkdfLabel(t2, c2, n2)
    ensures t1 == t2 && c1 == c2 && n1 == n2
  {
    HkdfLabelParts(t1, c1, n1);
    HkdfLabelParts(t2, c2, n2);
    OctetsInjective("tls13 " + t1, "tls13 " + t2);
    assert ("tls13 " + t1)[6..] == t1 && ("tls13 " + t2)[6..] == t2;
  }

  lemma TextIsAscii(l: Label)
    ensures Ascii(Text(l)) && |Text(l)| < 249
  {
  }

  /** No two of the labels the handshake uses ever share an HKDF input, whatever the contexts. */
  lemma DerivationsSeparate(a: Label, c1: bytes, n1: nat, b: Label, c2: bytes, n2: nat)
    requires |c1| < 0x100 && |c2| < 0x100 && n1 < 0x1_0000 && n2 < 0x1_0000
    requires HkdfLabel(Text(a), c1, n1) == HkdfLabel(Text(b), c2, n2)
    ensures a == b && c1 == c2 && n1 == n2
  {
    TextIsAscii(a);
    TextIsAscii(b);
    HkdfLabelInjective(Text(a), c1, n1, Text(b), c2, n2);
    TextsDiffer(a, b);
  }

  /** The hash-based functions of one cipher suite hash. */
  datatype Primitives = Primitives(
    size: nat,
    sum: bytes -> bytes,
    extract: (bytes, bytes) -> bytes,
    expand: (bytes, bytes, nat) -> bytes,
    hmac: (bytes, bytes) -> bytes)

  function ExpandLabel(p: Primitives, secret: bytes, l: Label, context: bytes, length: nat): bytes {
    p.expand(secret, HkdfLabel(Text(l), context, length), length)
  }

  /** What the handshake needs of a suite: expandLabel is always to the hash size there. */
  datatype Schedule = Schedule(
    size: nat,
    sum: bytes -> bytes,
    extract: (bytes, bytes) -> bytes,
    expandLabel: (bytes, Label, bytes) -> bytes,
    hmac: (bytes, bytes) -> bytes)

  function ScheduleOf(p: Primitives): Schedule {
    Schedule(p.size, p.sum, p.extract, (secret, l, context) => ExpandLabel(p, secret, l, context, p.size), p.hmac)
  }

  predicate HmacSized(k: Schedule, key: bytes, data: bytes) {
    |k.hmac(key, data)| == k.size
  }

  /** An HMAC has the size of its hash. */
  type Kdf = k: Schedule | forall key, data :: HmacSized(k, key, data)
    ghost witness Schedule(0, _ => [], (_, _) => [], (_, _, _) => [], (_, _) => [])

  /** Primitives whose HMAC has the size of its hash. */
  type SizedPrimitives = p: Primitives | forall key, data :: HmacSized(ScheduleOf(p), key, data)
    ghost witness Primitives(0, _ => [], (_, _) => [], (_, _, _) => [], (_, _) => [])

  /** The schedule the handshake runs on, built from a suite's primitives. */
  function KdfOf(p: SizedPrimitives): Kdf {
    ScheduleOf(p)
  }

  /**
   * In that schedule every derivation is an HKDF expansion, and two derivations from one secret expand the
   * same input only if they have the same label and the same context.
   */
  lemma KdfSeparates(p: SizedPrimitives, secret: bytes, a: Label, c1: bytes, b: Label, c2: bytes)
    requires |c1| < 0x100 && |c2| < 0x100 && p.size < 0x1_0000
    ensures KdfOf(p).expandLabel(secret, a, c1) == p.expand(secret, HkdfLabel(Text(a), c1, p.size), p.size)
    ensures HkdfLabel(Text(a), c1, p.size) == HkdfLabel(Text(b), c2, p.size) <==> a == b && c1 == c2
  {
    if HkdfLabel(Text(a), c1, p.size) == HkdfLabel(Text(b), c2, p.size) {
      DerivationsSeparate(a, c1, p.size, b, c2, p.size);
    }
  }

  /** deriveSecret; no transcript is the empty one. */
  function DeriveSecret(k: Kdf, secret: bytes, l: Label, transcript: bytes): bytes {
    k.expandLabel(secret, l, k.sum(transcript))
  }

  /** extract; a missing new secret is a string of zeros. */
  function Extract(k: Kdf, newSecret: Option<bytes>, current: bytes): bytes {
    k.extract(if newSecret.None? then Repeat(0, k.size) else newSecret.value, current)
  }

  function FinishedHash(k: Kdf, baseKey: bytes, transcript: bytes): (r: bytes)
    ensures |r| == k.size
  {
    var key := k.expandLabel(baseKey, FinishedKey, []);
    assert HmacSized(k, key, k.sum(transcript));
    k.hmac(key, k.sum(transcript))
  }
}
