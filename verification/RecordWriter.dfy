/** conn.go: adaptive record sizing and the fragmenting write loop. */
module RecordWriter {
  import opened Bytes
  import opened RecordLayer
  import opened RoundTrip
  import opened HalfConn

  const TCP_MSS_ESTIMATE := 1208
  const RECORD_SIZE_BOOST_THRESHOLD := 128 * 1024

  /** Payload octets that fit one TCP segment after every overhead of the current cipher. */
  function PayloadBytes(h: Half, vers: nat): int
    requires Usable(h)
  {
    var room := TCP_MSS_ESTIMATE - RECORD_HEADER_LEN - ExplicitNonceLen(h);
    var fits := match h.cipher
      case NullCipher => room
      case StreamCipher(_, _) => room - h.mac.value.size
      case CbcCipher(_, iv) => room / |iv| * |iv| - 1 - h.mac.value.size
      case PrefixNonceAead(_, _) => room - AEAD_OVERHEAD
      case XorNonceAead(_, _) => room - AEAD_OVERHEAD;
    if vers == VERSION_TLS13 then fits - 1 else fits
  }

  /** Whether the size still grows with the packet count; otherwise it is the protocol maximum. */
  predicate Growing(disabled: bool, typ: byte, bytesSent: nat, packetsSent: nat) {
    !disabled && typ == TYPE_APPLICATION_DATA && bytesSent < RECORD_SIZE_BOOST_THRESHOLD && packetsSent <= 1000
  }

  function MaxPayload(h: Half, vers: nat, disabled: bool, typ: byte, bytesSent: nat, packetsSent: nat): int
    requires Usable(h)
  {
    if !Growing(disabled, typ, bytesSent, packetsSent) then MAX_PLAINTEXT
    else if PayloadBytes(h, vers) * (packetsSent + 1) > MAX_PLAINTEXT then MAX_PLAINTEXT
    else PayloadBytes(h, vers) * (packetsSent + 1)
  }

  lemma RoomBounds(h: Half, vers: nat)
    requires Usable(h)
    ensures 1 <= PayloadBytes(h, vers) <= TCP_MSS_ESTIMATE - RECORD_HEADER_LEN
  {
    match h.cipher {
      case CbcCipher(_, iv) => assert |iv| == 8 || |iv| == 16;
      case _ =>
    }
  }

  /** Every chosen size lets the write loop progress and respects the protocol maximum. */
  lemma ChosenSizeInRange(h: Half, vers: nat, disabled: bool, typ: byte, bytesSent: nat, packetsSent: nat)
    requires Usable(h)
    ensures 1 <= MaxPayload(h, vers, disabled, typ, bytesSent, packetsSent) <= MAX_PLAINTEXT
  {
    RoomBounds(h, vers);
    Grows(PayloadBytes(h, vers), packetsSent + 1);
  }

  lemma Grows(a: nat, k: nat)
    requires a >= 1 && k >= 1
    ensures a * k >= 1
  {
  }

  /** Length of the record that carries m octets of payload. */
  function EncodedLen(h: Half, m: nat): nat
    requires Usable(h)
  {
    RECORD_HEADER_LEN + ExplicitNonceLen(h) + match h.cipher
    case NullCipher => m
    case StreamCipher(_, _) => m + h.mac.value.size
    case CbcCipher(_, iv) => (m + h.mac.value.size) / |iv| * |iv| + |iv|
    case PrefixNonceAead(_, _) => m + AEAD_OVERHEAD
    case XorNonceAead(_, _) => if h.version == VERSION_TLS13 then m + 1 + AEAD_OVERHEAD else m + AEAD_OVERHEAD
  }

  /** The most payload whose record fits one TCP segment. */
  ghost predicate FillsSegment(h: Half, u: nat)
    requires Usable(h)
  {
    EncodedLen(h, u) <= TCP_MSS_ESTIMATE < EncodedLen(h, u + 1)
  }

  lemma PayloadFillsSegment(h: Half)
    requires Usable(h) && !h.cipher.NullCipher?
    ensures PayloadBytes(h, h.version) >= 0 && FillsSegment(h, PayloadBytes(h, h.version))
  {
    RoomBounds(h, h.version);
    if h.cipher.CbcCipher? {
      var b := |h.cipher.iv|;
      assert b == 8 || b == 16;
      WholeBlocks((TCP_MSS_ESTIMATE - RECORD_HEADER_LEN - ExplicitNonceLen(h)) / b, b);
    }
  }

  lemma WholeBlocks(q: nat, b: nat)
    requires (b == 8 || b == 16) && q >= 1
    ensures (q * b - 1) / b * b == q * b - b && q * b / b * b == q * b
  {
  }

  /**
   * The size law: while application data is young, the k-th record is sized to k times what fills a segment,
   * up to the protocol maximum; and it is the protocol maximum for everything else, once 128 KiB or a thousand
   * packets are out, and where sizing is off.
   */
  lemma SizedToSegments(h: Half, disabled: bool, typ: byte, bytesSent: nat, packetsSent: nat) returns (u: nat)
    requires Usable(h) && !h.cipher.NullCipher?
    ensures FillsSegment(h, u)
    ensures MaxPayload(h, h.version, disabled, typ, bytesSent, packetsSent)
         == if disabled || typ != 23 || bytesSent >= 131072 || packetsSent > 1000 || u * (packetsSent + 1) > 16384 then 16384
            else u * (packetsSent + 1)
  {
    PayloadFillsSegment(h);
    u := PayloadBytes(h, h.version);
  }

  /** What Protect produces has the length that EncodedLen counts for it. */
  lemma ProtectedLength(p: Primitives, h: Half, header: bytes, payload: bytes, explicit: bytes)
    requires Lawful(p) && Usable(h) && |header| == RECORD_HEADER_LEN && |explicit| == ExplicitNonceLen(h)
    ensures RECORD_HEADER_LEN + |explicit| + |Protect(p, h, header, payload, explicit).1| == EncodedLen(h, |payload|)
  {
    var c := h.cipher;
    if c.CbcCipher? {
      PaddedLength(payload + MacOver(p, h, header, payload), |c.iv|);
    }
  }

  lemma EncodedLenIsExact(p: Primitives, wire: nat, h: Half, f: Fragment, next: Half, record: bytes)
    requires Lawful(p) && SealsStep(p, wire, h, f, next, record)
    ensures |record| == EncodedLen(h, |f.payload|)
  {
    ProtectedLength(p, h, Header(f.typ, wire, |f.payload|), f.payload, ExplicitNonce(h, f.rand));
  }

  lemma PaddedLength(t: bytes, blockSize: nat)
    requires blockSize == 8 || blockSize == 16
    ensures |PadBlocks(t, blockSize)| == |t| / blockSize * blockSize + blockSize
  {
  }

  /** No record exceeds what the reader on the other side accepts, and its length fits 16 bits. */
  lemma WithinReaderLimits(h: Half, m: nat)
    requires Usable(h) && m <= MAX_PLAINTEXT
    ensures EncodedLen(h, m) - RECORD_HEADER_LEN <= MAX_CIPHERTEXT < 0x1_0000
    ensures h.version == VERSION_TLS13 ==> EncodedLen(h, m) - RECORD_HEADER_LEN <= MAX_CIPHERTEXT_TLS13
  {
    if h.cipher.CbcCipher? {
      var b := |h.cipher.iv|;
      assert b == 8 || b == 16;
      assert (m + h.mac.value.size) / b * b <= m + h.mac.value.size;
    }
  }

  /** A record sized while growing fits the k+1 segments it was sized for. */
  lemma GrowthRespectsSegments(h: Half, vers: nat, typ: byte, bytesSent: nat, k: nat, m: nat)
    requires Usable(h) && Growing(false, typ, bytesSent, k)
    requires h.version == VERSION_TLS13 ==> vers == VERSION_TLS13
    requires m <= MaxPayload(h, vers, false, typ, bytesSent, k)
    ensures EncodedLen(h, m) <= (k + 1) * TCP_MSS_ESTIMATE
  {
    RoomBounds(h, vers);
    var (n, e) := (PayloadBytes(h, vers), ExplicitNonceLen(h));
    if h.cipher.CbcCipher? {
      var (b, size) := (|h.cipher.iv|, h.mac.value.size);
      var blocks := (TCP_MSS_ESTIMATE - RECORD_HEADER_LEN - e) / b;
      assert n <= blocks * b - 1 - size;
      CbcGrowth(m, n, k + 1, blocks, b, size);
      Distribute(k + 1, e, blocks * b);
    } else {
      LinearGrowth(m, n, k + 1, EncodedLen(h, 0));
    }
  }

  /** k payloads of n octets and one overhead never need more than k times payload plus overhead. */
  lemma LinearGrowth(m: nat, n: nat, k: nat, overhead: nat)
    requires k >= 1 && m <= n * k && n + overhead <= TCP_MSS_ESTIMATE
    ensures m + overhead <= k * TCP_MSS_ESTIMATE
  {
    assert n * k + overhead <= n * k + overhead * k by { Grow(overhead, k); }
    assert n * k + overhead * k == (n + overhead) * k;
    MulMonotone(n + overhead, TCP_MSS_ESTIMATE, k);
  }

  lemma Grow(a: nat, k: nat)
    requires k >= 1
    ensures a <= a * k
  {
  }

  lemma MulMonotone(a: nat, b: nat, k: nat)
    requires a <= b
    ensures a * k <= b * k
  {
  }

  lemma CbcGrowth(m: nat, n: nat, k: nat, blocks: nat, b: nat, size: nat)
    requires (b == 8 || b == 16) && k >= 1 && m <= n * k && n <= blocks * b - 1 - size
    ensures (m + size) / b * b + b <= k * (blocks * b)
  {
    MulMonotone(n, blocks * b - 1 - size, k);
    assert (blocks * b - 1 - size) * k == k * (blocks * b) - (1 + size) * k;
    Grow(1 + size, k);
    assert m + size < k * (blocks * b);
    assert k * (blocks * b) == (k * blocks) * b;
    BelowMultiple(m + size, k * blocks, b);
  }

  lemma BelowMultiple(x: nat, q: nat, b: nat)
    requires (b == 8 || b == 16) && x < q * b
    ensures x / b * b + b <= q * b
  {
  }

  lemma Distribute(k: nat, e: nat, fill: nat)
    requires k >= 1 && RECORD_HEADER_LEN + e + fill <= TCP_MSS_ESTIMATE
    ensures RECORD_HEADER_LEN + e + k * fill <= k * TCP_MSS_ESTIMATE
  {
    LinearGrowth(fill * k, fill, k, RECORD_HEADER_LEN + e);
  }

  datatype WriteError = NoError | RandError | SequencePanic | CipherSpecError

  /** Randomness that could not be read is only tolerated where none is used. */
  function FragmentOf(typ: byte, payload: bytes, rand: Option<Entropy>): Fragment {
    Fragment(typ, payload, if rand.None? then Repeat(0, 16) else rand.value)
  }

  function Payloads(fs: seq<Fragment>): (r: seq<bytes>)
    ensures |r| == |fs|
  {
    seq(|fs|, i requires 0 <= i < |fs| => fs[i].payload)
  }

  /** What decides record sizes: what has been sent so far. */
  datatype Turn = Turn(bytes: nat, packets: nat)

  datatype Pace = Pace(vers: nat, disabled: bool, typ: byte, buffering: bool)

  /** Octets count once they are sent; packets count while application data is young. */
  function NextTurn(c: Pace, t: Turn, record: bytes): Turn {
    Turn(if c.buffering then t.bytes else t.bytes + |record|,
         if !c.disabled && c.typ == TYPE_APPLICATION_DATA && t.bytes < RECORD_SIZE_BOOST_THRESHOLD then t.packets + 1 else t.packets)
  }

  /** A fragment has the size chosen at its turn, or is the last and shorter. */
  ghost predicate PacedStep(c: Pace, h: Half, t: Turn, f: Fragment, record: bytes, u: Turn, last: bool) {
    && Usable(h)
    && var size := MaxPayload(h, c.vers, c.disabled, c.typ, t.bytes, t.packets);
    && |f.payload| <= size && (|f.payload| < size ==> last)
    && u == NextTurn(c, t, record)
  }

  ghost predicate ChosenLength(c: Pace, h: Half, t: Turn, left: nat, m: nat) {
    && Usable(h)
    && var size := MaxPayload(h, c.vers, c.disabled, c.typ, t.bytes, t.packets);
    && m <= size && (m < size ==> m == left)
  }

  lemma StepIsPaced(c: Pace, h: Half, t: Turn, f: Fragment, record: bytes, left: nat)
    requires ChosenLength(c, h, t, left, |f.payload|)
    ensures PacedStep(c, h, t, f, record, NextTurn(c, t, record), |f.payload| == left)
  {
  }

  /** Every fragment of a run is as long as its turn allows, but for a shorter one that finishes the data. */
  ghost predicate Paced(c: Pace, turns: seq<Turn>, states: seq<Half>, fs: seq<Fragment>, records: seq<bytes>, finished: bool) {
    && |turns| == |states| == |fs| + 1 && |records| == |fs|
    && forall i :: 0 <= i < |fs| ==>
         PacedStep(c, states[i], turns[i], fs[i], records[i], turns[i + 1], finished && i == |fs| - 1)
  }

  lemma ExtendPaced(c: Pace, turns: seq<Turn>, states: seq<Half>, fs: seq<Fragment>, records: seq<bytes>,
                    f: Fragment, next: Half, record: bytes, finished: bool)
    requires Paced(c, turns, states, fs, records, false)
    requires PacedStep(c, states[|fs|], turns[|fs|], f, record, NextTurn(c, turns[|fs|], record), finished)
    ensures Paced(c, turns + [NextTurn(c, turns[|fs|], record)], states + [next], fs + [f], records + [record], finished)
  {
    var (ts, ss, gs, rs) := (turns + [NextTurn(c, turns[|fs|], record)], states + [next], fs + [f], records + [record]);
    forall i | 0 <= i < |gs|
      ensures PacedStep(c, ss[i], ts[i], gs[i], rs[i], ts[i + 1], finished && i == |gs| - 1)
    {
      if i < |fs| {
        assert PacedStep(c, states[i], turns[i], fs[i], records[i], turns[i + 1], false);
      }
    }
  }

  lemma ChosenLengthInRange(c: Pace, h: Half, t: Turn, left: nat, m: nat)
    requires ChosenLength(c, h, t, left, m)
    ensures m <= MAX_PLAINTEXT
  {
    ChosenSizeInRange(h, c.vers, c.disabled, c.typ, t.bytes, t.packets);
  }

  lemma ExtendRound(c: Pace, turns: seq<Turn>, states: seq<Half>, fs: seq<Fragment>, records: seq<bytes>,
                    f: Fragment, next: Half, record: bytes, left: nat)
    requires Paced(c, turns, states, fs, records, false) && ChosenLength(c, states[|fs|], turns[|fs|], left, |f.payload|)
    ensures Paced(c, turns + [NextTurn(c, turns[|fs|], record)], states + [next], fs + [f], records + [record], |f.payload| == left)
  {
    StepIsPaced(c, states[|fs|], turns[|fs|], f, record, left);
    ExtendPaced(c, turns, states, fs, records, f, next, record, |f.payload| == left);
  }

  /** Anything but application data, and everything where sizing is off, goes out in full records but for the last. */
  lemma FullRecords(c: Pace, turns: seq<Turn>, states: seq<Half>, fs: seq<Fragment>, records: seq<bytes>, i: nat)
    requires Paced(c, turns, states, fs, records, true) && i + 1 < |fs| && (c.disabled || c.typ != TYPE_APPLICATION_DATA)
    ensures |fs[i].payload| == 16384
  {
    assert PacedStep(c, states[i], turns[i], fs[i], records[i], turns[i + 1], false);
  }

  /** The record version field: 1.0 before negotiation, frozen at 1.2 for TLS 1.3. */
  function WireVersion(vers: nat): nat {
    if vers == 0 then VERSION_TLS10 else if vers == VERSION_TLS13 then VERSION_TLS12 else vers
  }

  class Writer {
    const out: HalfConn
    var vers: nat
    var bytesSent: nat
    var packetsSent: nat
    var dynamicRecordSizingDisabled: bool
    var buffering: bool
    var sendBuf: bytes
    var sent: bytes               // what the network connection has been given

    constructor (out: HalfConn)
      ensures this.out == out && vers == bytesSent == packetsSent == 0
      ensures !buffering && sendBuf == sent == []
    {
      this.out := out;
      vers, bytesSent, packetsSent, dynamicRecordSizingDisabled := 0, 0, 0, false;
      buffering, sendBuf, sent := false, [], [];
    }

    /** write: while buffering nothing is sent, nor counted as sent. */
    method Emit(data: bytes)
      modifies this`sendBuf, this`sent, this`bytesSent
      ensures buffering ==> sent == old(sent) && sendBuf == old(sendBuf) + data
      ensures !buffering ==> sent == old(sent) + data && sendBuf == old(sendBuf)
      ensures bytesSent == old(bytesSent) + (if buffering then 0 else |data|)
      ensures bytesSent - |sent| == old(bytesSent - |sent|)
    {
      if buffering {
        sendBuf := sendBuf + data;
        return;
      }
      sent := sent + data;
      bytesSent := bytesSent + |data|;
    }

    /** flush: what was held back goes out, in order, and buffering ends. */
    method Flush()
      modifies this`sendBuf, this`sent, this`bytesSent, this`buffering
      ensures sent == old(sent + sendBuf) && sendBuf == []
      ensures bytesSent - |sent| == old(bytesSent - |sent|)
      ensures buffering == (old(buffering) && old(sendBuf) == [])
    {
      if |sendBuf| == 0 {
        return;
      }
      sent := sent + sendBuf;
      bytesSent := bytesSent + |sendBuf|;
      sendBuf := [];
      buffering := false;
    }

    /** maxPayloadSizeForWrite: the size, and the packet count advanced only where the size may grow. */
    method MaxPayloadSizeForWrite(typ: byte) returns (n: nat)
      requires out.Valid()
      modifies this`packetsSent
      ensures n == MaxPayload(out.Value(), vers, dynamicRecordSizingDisabled, typ, bytesSent, old(packetsSent))
      ensures 1 <= n <= MAX_PLAINTEXT
      ensures packetsSent == old(packetsSent) +
                (if !dynamicRecordSizingDisabled && typ == TYPE_APPLICATION_DATA && bytesSent < RECORD_SIZE_BOOST_THRESHOLD then 1 else 0)
    {
      ChosenSizeInRange(out.Value(), vers, dynamicRecordSizingDisabled, typ, bytesSent, packetsSent);
      if dynamicRecordSizingDisabled || typ != TYPE_APPLICATION_DATA {
        return MAX_PLAINTEXT;
      }
      if bytesSent >= RECORD_SIZE_BOOST_THRESHOLD {
        return MAX_PLAINTEXT;
      }
      var e := out.ExplicitNonceLength();
      var payloadBytes := TCP_MSS_ESTIMATE - RECORD_HEADER_LEN - e;
      match out.cipher {
        case NullCipher =>
        case StreamCipher(_, _) => payloadBytes := payloadBytes - out.mac.value.size;
        case CbcCipher(_, iv) => payloadBytes := payloadBytes / |iv| * |iv| - 1 - out.mac.value.size;
        case PrefixNonceAead(_, _) => payloadBytes := payloadBytes - AEAD_OVERHEAD;
        case XorNonceAead(_, _) => payloadBytes := payloadBytes - AEAD_OVERHEAD;
      }
      if vers == VERSION_TLS13 {
        payloadBytes := payloadBytes - 1;
      }
      var pkt := packetsSent;
      packetsSent := packetsSent + 1;
      if pkt > 1000 {
        return MAX_PLAINTEXT;
      }
      RoomBounds(out.Value(), vers);
      Grows(payloadBytes, pkt + 1);
      n := payloadBytes * (pkt + 1);
      if n > MAX_PLAINTEXT {
        n := MAX_PLAINTEXT;
      }
    }

    /** The body of the write loop: header and encryption of one fragment. */
    method SealFragment(p: Primitives, typ: byte, payload: bytes, rand: Option<Entropy>) returns (sealed: SealOutcome)
      requires out.Valid() && Lawful(p)
      modifies out`cipher, out.seqNum
      ensures sealed.Record? ==> out.Valid()
      ensures sealed.Record? ==>
        SealsStep(p, WireVersion(vers), old(out.Value()), FragmentOf(typ, payload, rand), out.Value(), sealed.record)
    {
      ghost var h := out.Value();
      sealed := out.EncryptRecord(p, Header(typ, WireVersion(vers), |payload|), payload, rand);
      if sealed.Record? {
        SealKeepsUsable(p, WireVersion(vers), h, FragmentOf(typ, payload, rand), out.Value(), sealed.record);
      }
    }

    function PaceFor(typ: byte): Pace
      reads this
    {
      Pace(vers, dynamicRecordSizingDisabled, typ, buffering)
    }

    /** One round of the write loop: the size, the fragment, the record. */
    method SealNext(p: Primitives, typ: byte, left: bytes, rand: Option<Entropy>) returns (m: nat, sealed: SealOutcome, ghost f: Fragment)
      requires out.Valid() && Lawful(p) && left != []
      modifies this`packetsSent, out`cipher, out.seqNum
      ensures 1 <= m <= |left| && f.typ == typ && f.payload == left[..m]
      ensures ChosenLength(PaceFor(typ), old(out.Value()), Turn(bytesSent, old(packetsSent)), |left|, m)
      ensures packetsSent == NextTurn(PaceFor(typ), Turn(bytesSent, old(packetsSent)), []).packets
      ensures sealed.Record? ==> out.Valid() && SealsStep(p, WireVersion(vers), old(out.Value()), f, out.Value(), sealed.record)
    {
      m := ChooseLength(typ, |left|);
      f := FragmentOf(typ, left[..m], rand);
      sealed := SealFragment(p, typ, left[..m], rand);
    }

    /** The size of the next fragment: the chosen one, or what is left. */
    method ChooseLength(typ: byte, left: nat) returns (m: nat)
      requires out.Valid() && left > 0
      modifies this`packetsSent
      ensures 1 <= m <= left && ChosenLength(PaceFor(typ), out.Value(), Turn(bytesSent, old(packetsSent)), left, m)
      ensures packetsSent == NextTurn(PaceFor(typ), Turn(bytesSent, old(packetsSent)), []).packets
    {
      m := MaxPayloadSizeForWrite(typ);
      if m > left {
        m := left;
      }
    }

    /** The same, and the record handed to the network; the accounts of the loop go one round on. */
    method WriteNext(p: Primitives, typ: byte, data: bytes, n: nat, rand: Option<Entropy>,
                     ghost states: seq<Half>, ghost fs: seq<Fragment>, ghost records: seq<bytes>, ghost turns: seq<Turn>)
      returns (m: nat, sealed: SealOutcome, ghost states': seq<Half>, ghost fs': seq<Fragment>, ghost turns': seq<Turn>)
      requires out.Valid() && Lawful(p) && n < |data|
      requires Written(p, WireVersion(vers), typ, data, n, states, fs, records) && out.Value() == states[|fs|]
      requires Paced(PaceFor(typ), turns, states, fs, records, false) && turns[|fs|] == Turn(bytesSent, packetsSent)
      modifies this`packetsSent, this`bytesSent, this`sent, this`sendBuf, out`cipher, out.seqNum
      ensures 1 <= m <= |data| - n && bytesSent - |sent| == old(bytesSent - |sent|)
      ensures !sealed.Record? ==> sent == old(sent) && sendBuf == old(sendBuf)
      ensures sealed.Record? ==> sent == (if buffering then old(sent) else old(sent) + sealed.record)
      ensures sealed.Record? ==> sendBuf == (if buffering then old(sendBuf) + sealed.record else old(sendBuf))
      ensures sealed.Record? ==>
        && out.Valid() && Written(p, WireVersion(vers), typ, data, n + m, states', fs', records + [sealed.record])
        && states'[0] == states[0] && states'[|fs'|] == out.Value()
      ensures sealed.Record? ==>
        && Paced(PaceFor(typ), turns', states', fs', records + [sealed.record], n + m == |data|)
        && turns'[0] == turns[0] && turns'[|fs'|] == Turn(bytesSent, packetsSent)
    {
      ghost var f;
      m, sealed, f := SealRound(p, typ, data, n, rand, states, fs, records, turns);
      states', fs', turns' := states, fs, turns;
      if sealed.Record? {
        states', fs' := states + [out.Value()], fs + [f];
        turns' := turns + [NextTurn(PaceFor(typ), turns[|fs|], sealed.record)];
        Emit(sealed.record);
      }
    }

    /** The accounts after sealing one more record. */
    method SealRound(p: Primitives, typ: byte, data: bytes, n: nat, rand: Option<Entropy>,
                     ghost states: seq<Half>, ghost fs: seq<Fragment>, ghost records: seq<bytes>, ghost turns: seq<Turn>)
      returns (m: nat, sealed: SealOutcome, ghost f: Fragment)
      requires out.Valid() && Lawful(p) && n < |data|
      requires Written(p, WireVersion(vers), typ, data, n, states, fs, records) && out.Value() == states[|fs|]
      requires Paced(PaceFor(typ), turns, states, fs, records, false) && turns[|fs|] == Turn(bytesSent, packetsSent)
      modifies this`packetsSent, out`cipher, out.seqNum
      ensures 1 <= m <= |data| - n
      ensures packetsSent == NextTurn(PaceFor(typ), turns[|fs|], []).packets
      ensures sealed.Record? ==>
        && out.Valid() && Written(p, WireVersion(vers), typ, data, n + m, states + [out.Value()], fs + [f], records + [sealed.record])
        && Paced(PaceFor(typ), turns + [NextTurn(PaceFor(typ), turns[|fs|], sealed.record)], states + [out.Value()], fs + [f],
                 records + [sealed.record], n + m == |data|)
    {
      m, sealed, f := SealNext(p, typ, data[n..], rand);
      if sealed.Record? {
        ExtendBoth(p, WireVersion(vers), PaceFor(typ), data, n, turns, states, fs, records, f, out.Value(), sealed.record);
      }
    }

    /** What has gone out or is held back, after these records. */
    twostate predicate Emitted(records: seq<bytes>)
      reads this
    {
      && buffering == old(buffering) && vers == old(vers) && bytesSent - |sent| == old(bytesSent) - |old(sent)|
      && (!buffering ==> sent == old(sent) + Concat(records) && sendBuf == old(sendBuf))
      && (buffering ==> sent == old(sent) && sendBuf == old(sendBuf) + Concat(records))
    }

    /** The loop of writeRecordLocked. */
    method WriteFragments(p: Primitives, typ: byte, data: bytes, entropy: nat -> Option<Entropy>)
      returns (n: nat, err: WriteError, records: seq<bytes>, ghost fs: seq<Fragment>, ghost states: seq<Half>, ghost turns: seq<Turn>)
      requires out.Valid() && Lawful(p)
      modifies this, out`cipher, out.seqNum
      ensures Emitted(records) && Paced(old(PaceFor(typ)), turns, states, fs, records, n == |data|)
      ensures turns[0] == old(Turn(bytesSent, packetsSent))
      ensures Written(p, WireVersion(vers), typ, data, n, states, fs, records) && states[0] == old(out.Value())
      ensures err == NoError ==> n == |data| && out.Valid() && out.Value() == states[|fs|]
      ensures err != CipherSpecError
    {
      n, err, records, fs, states := 0, NoError, [], [], [out.Value()];
      turns := [Turn(bytesSent, packetsSent)];
      while n < |data|
        invariant n <= |data| && Emitted(records) && PaceFor(typ) == old(PaceFor(typ))
        invariant Paced(PaceFor(typ), turns, states, fs, records, n == |data|)
        invariant turns[0] == old(Turn(bytesSent, packetsSent)) && turns[|fs|] == Turn(bytesSent, packetsSent)
        invariant Written(p, WireVersion(vers), typ, data, n, states, fs, records) && states[0] == old(out.Value())
        invariant out.Valid() && out.Value() == states[|fs|]
      {
        var m, sealed;
        ghost var states', fs', turns';
        m, sealed, states', fs', turns' := WriteNext(p, typ, data, n, entropy(|records|), states, fs, records, turns);
        if !sealed.Record? {
          err := if sealed.NoRandomness? then RandError else SequencePanic;
          return;
        }
        OneRecordMore(old(if buffering then sendBuf else sent), records, sealed.record);
        states, fs, turns, records := states', fs', turns', records + [sealed.record];
        n := n + m;
      }
    }

    /**
     * writeRecordLocked: cuts data into fragments and seals them one after the other. Whatever
     * sizes were chosen, the fragments are non-empty and bounded, concatenate to the part of data
     * reported as written, and the records are the sealing run of those fragments; they are sent, or
     * held back while buffering, in order.
     */
    method WriteRecordLocked(p: Primitives, typ: byte, data: bytes, entropy: nat -> Option<Entropy>)
      returns (n: nat, err: WriteError, records: seq<bytes>, ghost fs: seq<Fragment>, ghost states: seq<Half>, ghost turns: seq<Turn>)
      requires out.Valid() && Lawful(p)
      requires !out.nextCipher.NullCipher? && out.version != VERSION_TLS13 ==>
        Usable(Half(out.version, out.nextCipher, out.nextMac, 0))
      modifies this, out, out.seqNum
      ensures Emitted(records) && Paced(old(PaceFor(typ)), turns, states, fs, records, n == |data|)
      ensures turns[0] == old(Turn(bytesSent, packetsSent))
      ensures Written(p, WireVersion(vers), typ, data, n, states, fs, records) && states[0] == old(out.Value())
      ensures err == NoError ==> n == |data|
      ensures err == NoError && typ != TYPE_CHANGE_CIPHER_SPEC ==> out.Valid() && out.Value() == states[|fs|]
      ensures err == CipherSpecError ==> typ == TYPE_CHANGE_CIPHER_SPEC && vers != VERSION_TLS13
    {
      n, err, records, fs, states, turns := WriteFragments(p, typ, data, entropy);
      if err == NoError && typ == TYPE_CHANGE_CIPHER_SPEC && vers != VERSION_TLS13 {
        var ok := out.ChangeCipherSpec();
        if !ok {
          err := CipherSpecError;
        }
      }
    }
  }

  lemma OneRecordMore(front: bytes, records: seq<bytes>, record: bytes)
    ensures front + Concat(records + [record]) == front + Concat(records) + record
  {
    ConcatAppend(records, [record]);
    assert Concat([record]) == record + [] == record;
  }

  /** The first n octets of data have gone out, cut into fs and sealed as records. */
  ghost predicate Written(p: Primitives, wire: nat, typ: byte, data: bytes, n: nat,
                          states: seq<Half>, fs: seq<Fragment>, records: seq<bytes>) {
    && n <= |data| && Concat(Payloads(fs)) == data[..n]
    && (forall i :: 0 <= i < |fs| ==> fs[i].typ == typ && 1 <= |fs[i].payload| <= MAX_PLAINTEXT)
    && SealsTo(p, wire, states, fs, records)
  }

  lemma ExtendWritten(p: Primitives, wire: nat, typ: byte, data: bytes, n: nat, states: seq<Half>, fs: seq<Fragment>,
                      records: seq<bytes>, f: Fragment, next: Half, record: bytes)
    requires Written(p, wire, typ, data, n, states, fs, records) && SealsStep(p, wire, states[|fs|], f, next, record)
    requires f.typ == typ && 1 <= |f.payload| <= MAX_PLAINTEXT && n + |f.payload| <= |data|
    requires f.payload == data[n..][..|f.payload|]
    ensures Written(p, wire, typ, data, n + |f.payload|, states + [next], fs + [f], records + [record])
  {
    ExtendRun(p, wire, states, fs, records, f, next, record);
    ExtendPayloads(fs, f, data, n, |f.payload|);
  }

  lemma ExtendRun(p: Primitives, wire: nat, states: seq<Half>, fs: seq<Fragment>, records: seq<bytes>,
                  f: Fragment, next: Half, record: bytes)
    requires SealsTo(p, wire, states, fs, records) && SealsStep(p, wire, states[|fs|], f, next, record)
    ensures SealsTo(p, wire, states + [next], fs + [f], records + [record])
  {
  }

  lemma SealKeepsUsable(p: Primitives, wire: nat, h: Half, f: Fragment, next: Half, record: bytes)
    requires Lawful(p) && SealsStep(p, wire, h, f, next, record)
    ensures Usable(next)
  {
    if h.cipher.CbcCipher? {
      var _, _ := CbcRoundTrip(p, h, wire, f);
    }
  }

  lemma ExtendPayloads(fs: seq<Fragment>, f: Fragment, data: bytes, n: nat, m: nat)
    requires n + m <= |data| && Concat(Payloads(fs)) == data[..n] && f.payload == data[n..][..m]
    ensures Concat(Payloads(fs + [f])) == data[..n + m]
  {
    assert Payloads(fs + [f]) == Payloads(fs) + [f.payload];
    ConcatAppend(Payloads(fs), [f.payload]);
    assert Concat([f.payload]) == f.payload + [] == f.payload;
    assert data[..n] + data[n..][..m] == data[..n + m];
  }

  /** One more round, in both accounts of the loop. */
  lemma ExtendBoth(p: Primitives, wire: nat, c: Pace, data: bytes, n: nat, turns: seq<Turn>, states: seq<Half>, fs: seq<Fragment>,
                   records: seq<bytes>, f: Fragment, next: Half, record: bytes)
    requires Written(p, wire, c.typ, data, n, states, fs, records) && SealsStep(p, wire, states[|fs|], f, next, record)
    requires f.typ == c.typ && 1 <= |f.payload| && n + |f.payload| <= |data| && f.payload == data[n..][..|f.payload|]
    requires Paced(c, turns, states, fs, records, false) && ChosenLength(c, states[|fs|], turns[|fs|], |data| - n, |f.payload|)
    ensures Written(p, wire, c.typ, data, n + |f.payload|, states + [next], fs + [f], records + [record])
    ensures Paced(c, turns + [NextTurn(c, turns[|fs|], record)], states + [next], fs + [f], records + [record], n + |f.payload| == |data|)
  {
    ChosenLengthInRange(c, states[|fs|], turns[|fs|], |data| - n, |f.payload|);
    ExtendWritten(p, wire, c.typ, data, n, states, fs, records, f, next, record);
    ExtendRound(c, turns, states, fs, records, f, next, record, |data| - n);
  }
}
