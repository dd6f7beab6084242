/** The writing and the reading half of conn.go put together across a connection. */
module EndToEnd {
  import opened Bytes
  import opened RecordLayer
  import opened RoundTrip
  import opened RecordReader
  import opened Reassembly
  import opened RecordWriter

  lemma U16Value(n: nat)
    requires n < 0x1_0000
    ensures Uint(U16(n)) == n
  {
    var b := U16(n);
    assert b[..1] == [Low(n / 256)];
    ByteRoundTrip(n / 256);
    ByteRoundTrip(n % 256);
    assert Uint(b[..1]) == Low(n / 256) as int by { assert b[..1][..0] == []; }
  }

  /** The header fields of a sealed record. */
  lemma SealedHeader(p: Primitives, wire: nat, h: Half, f: Fragment, next: Half, record: bytes)
    requires Lawful(p) && SealsStep(p, wire, h, f, next, record) && !h.cipher.NullCipher? && |f.payload| <= MAX_PLAINTEXT
    requires wire < 0x1_0000
    ensures |record| >= RECORD_HEADER_LEN && record[0] == OuterType(h, f.typ)
    ensures Uint(record[1..3]) == wire && Uint(record[3..5]) == |record| - RECORD_HEADER_LEN
    ensures |record| - RECORD_HEADER_LEN <= if h.version == VERSION_TLS13 then MAX_CIPHERTEXT_TLS13 else MAX_CIPHERTEXT
  {
    EncodedLenIsExact(p, wire, h, f, next, record);
    WithinReaderLimits(h, |f.payload|);
    var explicit, body := SealedFrame(p, wire, h, f, next, record);
    FramedHeader(record, OuterType(h, f.typ), f.typ, wire, |f.payload|, explicit, body);
  }

  /** A sealed record is a frame around its explicit nonce and its protected fragment. */
  lemma SealedFrame(p: Primitives, wire: nat, h: Half, f: Fragment, next: Half, record: bytes) returns (explicit: bytes, body: bytes)
    requires Lawful(p) && SealsStep(p, wire, h, f, next, record) && !h.cipher.NullCipher?
    ensures record == Frame(OuterType(h, f.typ), Header(f.typ, wire, |f.payload|), explicit, body)
  {
    explicit := ExplicitNonce(h, f.rand);
    body := Protect(p, h, Header(f.typ, wire, |f.payload|), f.payload, explicit).1;
  }

  lemma FramedHeader(record: bytes, typ: byte, inner: byte, wire: nat, n: nat, explicit: bytes, body: bytes)
    requires record == Frame(typ, Header(inner, wire, n), explicit, body)
    requires wire < 0x1_0000 && |explicit| + |body| < 0x1_0000
    ensures |record| >= RECORD_HEADER_LEN && record[0] == typ
    ensures Uint(record[1..3]) == wire && Uint(record[3..5]) == |record| - RECORD_HEADER_LEN
  {
    var header := Header(inner, wire, n);
    FrameParts(typ, header, explicit, body);
    assert header[1..3] == U16(wire);
    FrameFields(record, typ, wire, |explicit| + |body|, header);
  }

  lemma FrameFields(record: bytes, typ: byte, wire: nat, n: nat, header: bytes)
    requires |header| == RECORD_HEADER_LEN <= |record| && header[1..3] == U16(wire)
    requires record[..RECORD_HEADER_LEN] == [typ] + header[1..3] + U16(n)
    requires wire < 0x1_0000 && n < 0x1_0000
    ensures Uint(record[1..3]) == wire && Uint(record[3..5]) == n
  {
    var front := record[..RECORD_HEADER_LEN];
    assert record[1..3] == front[1..3] == U16(wire);
    assert record[3..5] == front[3..5] == U16(n);
    U16Value(wire);
    U16Value(n);
  }

  /** A run of sealed handshake fragments, seen from a reader in the sender's first state. */
  lemma SealedRunFeeds(p: Primitives, vers: nat, done: bool, states: seq<Half>, fs: seq<Fragment>, records: seq<bytes>, tail: bytes)
    returns (w: Wire)
    requires Lawful(p) && SealsTo(p, WireVersion(vers), states, fs, records) && !states[0].cipher.NullCipher?
    requires VERSION_TLS10 <= vers <= VERSION_TLS13 && states[0].version == vers
    requires states[0].seqno + |fs| < SEQ_LIMIT
    requires forall i :: 0 <= i < |fs| ==> fs[i].typ == TYPE_HANDSHAKE && 1 <= |fs[i].payload| <= MAX_PLAINTEXT
    ensures w == Wire(Progress(vers, true, done), states, records, Payloads(fs), tail)
    ensures Feeds(OpenerOf(p), w)
    ensures Usable(states[|fs|])
  {
    StreamOfRecordsRoundTrip(p, WireVersion(vers), states, fs, records);
    w := Wire(Progress(vers, true, done), states, records, Payloads(fs), tail);
    forall i | 0 <= i < |fs|
      ensures FeedsRecord(OpenerOf(p), w.conf, states[i], records[i], states[i + 1], Payloads(fs)[i], TYPE_HANDSHAKE)
    {
      SealedRecordFeeds(p, vers, done, states, fs, records, TYPE_HANDSHAKE, i);
    }
  }

  lemma SealedRecordFeeds(p: Primitives, vers: nat, done: bool, states: seq<Half>, fs: seq<Fragment>, records: seq<bytes>, typ: byte, i: nat)
    requires Lawful(p) && SealsTo(p, WireVersion(vers), states, fs, records) && !states[0].cipher.NullCipher?
    requires VERSION_TLS10 <= vers <= VERSION_TLS13 && states[0].version == vers
    requires states[0].seqno + |fs| < SEQ_LIMIT
    requires forall j :: 0 <= j < |fs| ==> fs[j].typ == typ && 1 <= |fs[j].payload| <= MAX_PLAINTEXT
    requires i < |fs| && (typ == TYPE_HANDSHAKE || typ == TYPE_APPLICATION_DATA)
    ensures FeedsRecord(OpenerOf(p), Progress(vers, true, done), states[i], records[i], states[i + 1], fs[i].payload, typ)
    ensures records[i][0] == OuterType(states[i], typ) && !states[i + 1].cipher.NullCipher?
  {
    StreamOfRecordsRoundTrip(p, WireVersion(vers), states[..i + 1], fs[..i], records[..i]);
    var (h, f) := (states[i], fs[i]);
    assert SealsStep(p, WireVersion(vers), h, f, states[i + 1], records[i]);
    StepRoundTrip(p, WireVersion(vers), h, f, states[i + 1], records[i]);
    SealedHeader(p, WireVersion(vers), h, f, states[i + 1], records[i]);
  }

  lemma NothingLeft(fs: seq<bytes>, k: nat)
    requires k <= |fs| && From(fs, k) == [] && forall i :: 0 <= i < |fs| ==> fs[i] != []
    ensures k == |fs|
  {
  }

  /**
   * Handshake messages written through the fragmenting loop under installed keys, whatever record
   * sizes it chose, come out of readHandshake one by one; the reader ends with an empty buffer, at
   * the end of the sender's records and in the sender's final cipher state.
   */
  lemma WrittenMessagesAreRead(p: Primitives, accepts: Unmarshaler, vers: nat, s: Reader, ms: seq<bytes>, tail: bytes,
                               states: seq<Half>, fs: seq<Fragment>, records: seq<bytes>)
    returns (ss: seq<Reader>)
    requires Lawful(p)
    requires Written(p, WireVersion(vers), TYPE_HANDSHAKE, Concat(ms), |Concat(ms)|, states, fs, records)
    requires !states[0].cipher.NullCipher? && states[0].seqno + |fs| < SEQ_LIMIT
    requires VERSION_TLS10 <= vers <= VERSION_TLS13 && states[0].version == vers
    requires forall i :: 0 <= i < |ms| ==> Framed(accepts, ms[i])
    requires Ready(s, Progress(vers, true, s.conf.handshakeComplete)) && s.hand == []
    requires s.half == states[0] && s.raw == From(records, 0) + tail
    ensures ReturnsInOrder(HandshakerOf(OpenerOf(p), accepts), ss, ms) && ss[0] == s
    ensures ss[|ms|].hand == [] && ss[|ms|].raw == tail && ss[|ms|].half == states[|fs|]
  {
    var w := SealedRunFeeds(p, vers, s.conf.handshakeComplete, states, fs, records, tail);
    FromIsConcat(Payloads(fs), 0);
    assert Payloads(fs)[0..] == Payloads(fs);
    assert Concat(ms) + [] == Concat(ms)[..|Concat(ms)|] == s.hand + From(w.fs, 0);
    var k;
    ss, k := MessagesReassembled(OpenerOf(p), accepts, s, w, 0, ms, []);
    NothingLeft(w.fs, k);
  }

  lemma {:induction false} FromIsConcat(parts: seq<bytes>, k: nat)
    requires k <= |parts|
    ensures From(parts, k) == Concat(parts[k..])
    decreases |parts| - k
  {
    if k < |parts| {
      FromIsConcat(parts, k + 1);
      assert parts[k..][1..] == parts[k + 1..];
    }
  }
}
