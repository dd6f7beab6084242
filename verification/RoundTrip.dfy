/** Every record stream a sender produces under installed keys is read back exactly by a matching receiver. */
module RoundTrip {
  import opened Bytes
  import opened Padding
  import opened RecordLayer

  /** One writeRecordLocked fragment: type, payload and the randomness its encryption would draw. */
  datatype Fragment = Fragment(typ: byte, payload: bytes, rand: Entropy)

  /** Fragments are bounded, and in TLS 1.3 the inner type is never zero. */
  predicate Sendable(version: nat, f: Fragment) {
    && |f.payload| <= MAX_PLAINTEXT
    && (version == VERSION_TLS13 ==> f.typ != 0)
  }

  function EncryptFragment(p: Primitives, h: Half, wire: nat, f: Fragment): EncryptResult
    requires Usable(h)
  {
    Encrypt(p, h, Header(f.typ, wire, |f.payload|), f.payload, Some(f.rand))
  }

  /** Undoing the protection of f with the sender's own state recovers content, type and next cipher state. */
  ghost predicate Undoes(p: Primitives, h: Half, wire: nat, f: Fragment, next: Cipher, record: bytes)
    requires Usable(h)
  {
    var header := Header(f.typ, wire, |f.payload|);
    var explicit := ExplicitNonce(h, f.rand);
    && next == Protect(p, h, header, f.payload, explicit).0
    && record == Frame(OuterType(h, f.typ), header, explicit, Protect(p, h, header, f.payload, explicit).1)
    && Unseal(p, h, record) == Plain(next, f.payload, f.typ)
  }

  /** The MAC check accepts a payload followed by its own MAC and by padding of the announced length. */
  lemma CheckMacAccepts(p: Primitives, h: Half, c: Cipher, record: bytes, t: bytes, payload: bytes, mac: bytes, paddingLen: nat)
    requires h.mac.Some? && |record| >= RECORD_HEADER_LEN && |mac| == h.mac.value.size
    requires mac == MacOver(p, h, record[..3] + U16(|payload|), payload)
    requires |t| == |payload| + |mac| + paddingLen
    requires t[..|payload|] == payload && t[|payload|..|payload| + |mac|] == mac
    ensures CheckMac(p, h, c, record, t, paddingLen, 255) == Plain(c, payload, record[0])
  {
  }

  lemma StreamRoundTrip(p: Primitives, h: Half, wire: nat, f: Fragment) returns (next: Cipher, record: bytes)
    requires Lawful(p) && Usable(h) && h.cipher.StreamCipher?
    ensures Undoes(p, h, wire, f, next, record) && next.StreamCipher?
  {
    var header := Header(f.typ, wire, |f.payload|);
    var mac := MacOver(p, h, header, f.payload);
    var t := f.payload + mac;
    var k := Keystream(p, h.cipher.key, h.cipher.used, |t|);
    next, record := StreamCipher(h.cipher.key, h.cipher.used + |t|), Frame(f.typ, header, [], Xor(t, k));
    FrameParts(f.typ, header, [], Xor(t, k));
    assert record[..3] + U16(|f.payload|) == header;
    XorTwice(t, k);
    CheckMacAccepts(p, h, next, record, t, f.payload, mac, 0);
  }

  /** Padding a MACed plaintext and checking the padding again removes exactly what was added. */
  lemma PaddingRemoved(t: bytes, blockSize: nat)
    requires blockSize == 8 || blockSize == 16
    ensures var r := PadBlocks(t, blockSize); PlainPadding(r) == (|r| - |t|, 255) && r[..|t|] == t
  {
    var r := PadBlocks(t, blockSize);
    var n := blockSize - |t| % blockSize;
    ByteRoundTrip(n - 1);
    assert r[|r| - 1] == Low(n - 1);
    forall i | |t| <= i < |r|
      ensures r[i] == Low(n - 1)
    {
    }
  }

  lemma PaddingAndMacRemoved(payload: bytes, mac: bytes, blockSize: nat)
    requires blockSize == 8 || blockSize == 16
    ensures var r := PadBlocks(payload + mac, blockSize);
            && PlainPadding(r) == (|r| - |payload| - |mac|, 255)
            && r[..|payload|] == payload && r[|payload|..|payload| + |mac|] == mac
  {
    PaddingRemoved(payload + mac, blockSize);
    var r := PadBlocks(payload + mac, blockSize);
    assert r[..|payload|] == r[..|payload + mac|][..|payload|];
    assert r[|payload|..|payload| + |mac|] == r[..|payload + mac|][|payload|..];
  }

  /** Removing the encryption layer from a CBC record gives back the padded blocks. */
  lemma CbcPlaintextOf(p: Primitives, h: Half, record: bytes, t: bytes, explicit: bytes, c: bytes)
    requires Lawful(p) && Usable(h) && h.cipher.CbcCipher?
    requires |record| >= RECORD_HEADER_LEN && |explicit| == ExplicitNonceLen(h) && |t| > h.mac.value.size
    requires |t| % |h.cipher.iv| == 0
    requires c == p.cbcEncrypt(h.cipher.key, if explicit == [] then h.cipher.iv else explicit, t)
    requires record[RECORD_HEADER_LEN..] == explicit + c
    ensures CbcPlaintext(p, h, record) == Some(t)
    ensures CbcNext(h.cipher, record) == CbcCipher(h.cipher.key, LastBlock(c, h.cipher.iv))
  {
    var iv := h.cipher.iv;
    var whole := record[RECORD_HEADER_LEN..];
    assert whole[|explicit|..] == c && whole[..|explicit|] == explicit;
    BlockArithmetic(|explicit|, |c|, |iv|, h.mac.value.size);
    assert LastBlock(whole, iv) == LastBlock(c, iv);
  }

  lemma CbcUnseals(p: Primitives, h: Half, record: bytes, payload: bytes, mac: bytes, explicit: bytes, c: bytes)
    requires Lawful(p) && Usable(h) && h.cipher.CbcCipher?
    requires |record| >= RECORD_HEADER_LEN && |explicit| == ExplicitNonceLen(h)
    requires mac == MacOver(p, h, record[..3] + U16(|payload|), payload)
    requires c == p.cbcEncrypt(h.cipher.key, if explicit == [] then h.cipher.iv else explicit,
                               PadBlocks(payload + mac, |h.cipher.iv|))
    requires record[RECORD_HEADER_LEN..] == explicit + c
    ensures UnsealCbc(p, h, record) == Plain(CbcCipher(h.cipher.key, LastBlock(c, h.cipher.iv)), payload, record[0])
  {
    var t := PadBlocks(payload + mac, |h.cipher.iv|);
    CbcPlaintextOf(p, h, record, t, explicit, c);
    PaddingAndMacRemoved(payload, mac, |h.cipher.iv|);
    CheckMacAccepts(p, h, CbcNext(h.cipher, record), record, t, payload, mac, |t| - |payload| - |mac|);
  }

  lemma CbcRoundTrip(p: Primitives, h: Half, wire: nat, f: Fragment) returns (next: Cipher, record: bytes)
    requires Lawful(p) && Usable(h) && h.cipher.CbcCipher?
    ensures Undoes(p, h, wire, f, next, record) && next.CbcCipher? && |next.iv| == |h.cipher.iv|
  {
    var header := Header(f.typ, wire, |f.payload|);
    var explicit := ExplicitNonce(h, f.rand);
    var c := Protect(p, h, header, f.payload, explicit).1;
    next, record := CbcCipher(h.cipher.key, LastBlock(c, h.cipher.iv)), Frame(f.typ, header, explicit, c);
    FrameParts(f.typ, header, explicit, c);
    assert record[..3] + U16(|f.payload|) == header;
    CbcUnseals(p, h, record, f.payload, MacOver(p, h, header, f.payload), explicit, c);
  }

  lemma BlockArithmetic(e: nat, c: nat, blockSize: nat, size: nat)
    requires (blockSize == 8 || blockSize == 16) && (e == 0 || e == blockSize)
    requires c % blockSize == 0 && c > size
    ensures (e + c) % blockSize == 0 && e + c >= e + RoundUp(size + 1, blockSize)
  {
    if blockSize == 8 {
      ByEights(e, c, size);
    } else {
      BySixteens(e, c, size);
    }
  }

  lemma ByEights(e: nat, c: nat, size: nat)
    requires (e == 0 || e == 8) && c % 8 == 0 && c > size
    ensures (e + c) % 8 == 0 && c >= RoundUp(size + 1, 8)
  {
    var (q, r, t) := (c / 8, (size + 1) / 8, (size + 1) % 8);
    assert c == 8 * q && size + 1 == 8 * r + t;
    if t == 0 {
      assert RoundUp(size + 1, 8) == size + 1;
    } else {
      assert RoundUp(size + 1, 8) == 8 * (r + 1);
    }
  }

  lemma BySixteens(e: nat, c: nat, size: nat)
    requires (e == 0 || e == 16) && c % 16 == 0 && c > size
    ensures (e + c) % 16 == 0 && c >= RoundUp(size + 1, 16)
  {
    var (q, r, t) := (c / 16, (size + 1) / 16, (size + 1) % 16);
    assert c == 16 * q && size + 1 == 16 * r + t;
    if t == 0 {
      assert RoundUp(size + 1, 16) == size + 1;
    } else {
      assert RoundUp(size + 1, 16) == 16 * (r + 1);
    }
  }

  lemma AeadRoundTrip(p: Primitives, h: Half, wire: nat, f: Fragment) returns (record: bytes)
    requires Lawful(p) && Usable(h)
    requires h.version != VERSION_TLS13 && (h.cipher.PrefixNonceAead? || h.cipher.XorNonceAead?)
    ensures Undoes(p, h, wire, f, h.cipher, record)
  {
    var header := Header(f.typ, wire, |f.payload|);
    var explicit := ExplicitNonce(h, f.rand);
    var nonce := WrappedNonce(h.cipher, Be(h.seqno, 8));
    var body := p.seal(h.cipher.key, nonce, f.payload, Be(h.seqno, 8) + header);
    record := Frame(f.typ, header, explicit, body);
    FrameParts(f.typ, header, explicit, body);
    var payload := record[RECORD_HEADER_LEN..];
    assert payload[|explicit|..] == body && payload[..|explicit|] == explicit;
    assert Be(h.seqno, 8) + record[..3] + U16(|f.payload|) == Be(h.seqno, 8) + header;
    assert Protect(p, h, header, f.payload, explicit) == (h.cipher, body);
    assert UnsealAead(p, h, record) == Plain(h.cipher, f.payload, f.typ);
  }

  /** Section 5.4 of RFC 8446: zero padding after the inner type is invisible to the reader. */
  lemma {:induction false} UnpaddedZeros(content: bytes, typ: byte, zeros: nat)
    requires typ != 0
    ensures Unpadded(content + [typ] + Repeat(0, zeros)) == |content| + 1
  {
    var t := content + [typ] + Repeat(0, zeros);
    if zeros > 0 {
      assert t[..|t| - 1] == content + [typ] + Repeat(0, zeros - 1);
      UnpaddedZeros(content, typ, zeros - 1);
    }
  }

  /** A TLS 1.3 record built with any inner padding that fits, as any conforming sender may build it. */
  function PaddedRecord(p: Primitives, h: Half, header: bytes, payload: bytes, typ: byte, zeros: nat): bytes
    requires Usable(h) && h.cipher.XorNonceAead? && |header| == RECORD_HEADER_LEN
  {
    var inner := payload + [typ] + Repeat(0, zeros);
    var outer := InnerHeader(header, |inner| + AEAD_OVERHEAD);
    outer + p.seal(h.cipher.key, WrappedNonce(h.cipher, Be(h.seqno, 8)), inner, outer)
  }

  lemma Tls13PaddingInvisible(p: Primitives, h: Half, header: bytes, payload: bytes, typ: byte, zeros: nat)
    requires Lawful(p) && Usable(h) && h.cipher.XorNonceAead? && h.version == VERSION_TLS13
    requires |header| == RECORD_HEADER_LEN && typ != 0
    requires |payload| + zeros <= MAX_PLAINTEXT
    ensures Unseal(p, h, PaddedRecord(p, h, header, payload, typ, zeros)) == Plain(h.cipher, payload, typ)
  {
    var inner := payload + [typ] + Repeat(0, zeros);
    var outer := InnerHeader(header, |inner| + AEAD_OVERHEAD);
    var record := PaddedRecord(p, h, header, payload, typ, zeros);
    var body := p.seal(h.cipher.key, WrappedNonce(h.cipher, Be(h.seqno, 8)), inner, outer);
    assert record[RECORD_HEADER_LEN..] == body && record[RECORD_HEADER_LEN..][0..] == body;
    assert record[..RECORD_HEADER_LEN] == outer;
    UnpaddedZeros(payload, typ, zeros);
    assert inner[..|payload|] == payload;
  }

  lemma Tls13RoundTrip(p: Primitives, h: Half, wire: nat, f: Fragment) returns (record: bytes)
    requires Lawful(p) && Usable(h) && h.cipher.XorNonceAead? && h.version == VERSION_TLS13
    requires Sendable(h.version, f)
    ensures Undoes(p, h, wire, f, h.cipher, record)
  {
    var header := Header(f.typ, wire, |f.payload|);
    Tls13PaddingInvisible(p, h, header, f.payload, f.typ, 0);
    assert f.payload + [f.typ] + Repeat(0, 0) == f.payload + [f.typ];
    record := PaddedRecord(p, h, header, f.payload, f.typ, 0);
    var body := Protect(p, h, header, f.payload, []).1;
    assert record == Frame(TYPE_APPLICATION_DATA, header, [], body);
  }

  lemma UndoneIsRoundTrip(p: Primitives, h: Half, wire: nat, f: Fragment, c: Cipher, record: bytes)
    requires Usable(h) && !h.cipher.NullCipher? && h.seqno + 1 < SEQ_LIMIT
    requires Undoes(p, h, wire, f, c, record)
    ensures var next := h.(cipher := c, seqno := h.seqno + 1);
            EncryptFragment(p, h, wire, f) == Sealed(next, record) && Decrypt(p, h, record) == Opened(next, f.payload, f.typ)
  {
  }

  /**
   * One record under any installed cipher: the receiver in the sender's state recovers type and
   * payload, and both sides step to the same next state.
   */
  lemma RecordRoundTrip(p: Primitives, h: Half, wire: nat, f: Fragment) returns (next: Half, record: bytes)
    requires Lawful(p) && Usable(h) && !h.cipher.NullCipher? && h.seqno + 1 < SEQ_LIMIT && Sendable(h.version, f)
    ensures EncryptFragment(p, h, wire, f) == Sealed(next, record)
    ensures |record| >= RECORD_HEADER_LEN && Decrypt(p, h, record) == Opened(next, f.payload, f.typ)
    ensures Usable(next) && !next.cipher.NullCipher? && next.version == h.version && next.seqno == h.seqno + 1
  {
    var c := h.cipher;
    match h.cipher {
      case StreamCipher(_, _) => c, record := StreamRoundTrip(p, h, wire, f);
      case CbcCipher(_, _) => c, record := CbcRoundTrip(p, h, wire, f);
      case PrefixNonceAead(_, _) => record := AeadRoundTrip(p, h, wire, f);
      case XorNonceAead(_, _) =>
        if h.version == VERSION_TLS13 {
          record := Tls13RoundTrip(p, h, wire, f);
        } else {
          record := AeadRoundTrip(p, h, wire, f);
        }
    }
    next := h.(cipher := c, seqno := h.seqno + 1);
    UndoneIsRoundTrip(p, h, wire, f, c, record);
  }

  /** The sender's successive states and records for a run of fragments. */
  ghost predicate SealsTo(p: Primitives, wire: nat, states: seq<Half>, fs: seq<Fragment>, records: seq<bytes>) {
    && |states| == |fs| + 1 && |records| == |fs|
    && Usable(states[0])
    && forall i :: 0 <= i < |fs| ==> SealsStep(p, wire, states[i], fs[i], states[i + 1], records[i])
  }

  ghost predicate SealsStep(p: Primitives, wire: nat, h: Half, f: Fragment, next: Half, record: bytes) {
    Usable(h) && EncryptFragment(p, h, wire, f) == Sealed(next, record)
  }

  /** The receiver's successive states: each record is accepted with this type and content. */
  ghost predicate OpensTo(p: Primitives, states: seq<Half>, records: seq<bytes>, fs: seq<Fragment>) {
    && |states| == |fs| + 1 && |records| == |fs|
    && forall i :: 0 <= i < |fs| ==> OpensStep(p, states[i], records[i], states[i + 1], fs[i])
  }

  ghost predicate OpensStep(p: Primitives, h: Half, record: bytes, next: Half, f: Fragment) {
    && Usable(h) && |record| >= RECORD_HEADER_LEN
    && Decrypt(p, h, record) == Opened(next, f.payload, f.typ)
  }

  lemma StepRoundTrip(p: Primitives, wire: nat, h: Half, f: Fragment, next: Half, record: bytes)
    requires Lawful(p) && SealsStep(p, wire, h, f, next, record) && Sendable(h.version, f)
    requires !h.cipher.NullCipher? && h.seqno + 1 < SEQ_LIMIT
    ensures OpensStep(p, h, record, next, f)
    ensures Usable(next) && !next.cipher.NullCipher? && next.version == h.version && next.seqno == h.seqno + 1
  {
    var _, _ := RecordRoundTrip(p, h, wire, f);
  }

  /**
   * Record-stream round trip: whatever run of fragments a sender seals after installing keys, for
   * every cipher shape, a receiver starting in the same state accepts each record with the type
   * and content that went in, passing through the sender's own states and sequence numbers.
   */
  lemma StreamOfRecordsRoundTrip(p: Primitives, wire: nat, states: seq<Half>, fs: seq<Fragment>,
                                                    records: seq<bytes>)
    requires Lawful(p) && SealsTo(p, wire, states, fs, records)
    requires !states[0].cipher.NullCipher? && states[0].seqno + |fs| < SEQ_LIMIT
    requires forall i :: 0 <= i < |fs| ==> Sendable(states[0].version, fs[i])
    ensures OpensTo(p, states, records, fs)
    ensures forall i :: 0 <= i <= |fs| ==> states[i].seqno == states[0].seqno + i
    ensures Usable(states[|fs|]) && !states[|fs|].cipher.NullCipher? && states[|fs|].version == states[0].version
  {
    for n := 0 to |fs|
      invariant Usable(states[n]) && !states[n].cipher.NullCipher? && states[n].version == states[0].version
      invariant forall i :: 0 <= i <= n ==> states[i].seqno == states[0].seqno + i
      invariant forall i :: 0 <= i < n ==> OpensStep(p, states[i], records[i], states[i + 1], fs[i])
    {
      StepRoundTrip(p, wire, states[n], fs[n], states[n + 1], records[n]);
    }
  }

  /** Sealing never gets stuck before the sequence number is used up. */
  lemma SealingRunExists(p: Primitives, h: Half, wire: nat, fs: seq<Fragment>)
    returns (states: seq<Half>, records: seq<bytes>)
    requires Lawful(p) && Usable(h) && !h.cipher.NullCipher? && h.seqno + |fs| < SEQ_LIMIT
    requires forall i :: 0 <= i < |fs| ==> Sendable(h.version, fs[i])
    ensures SealsTo(p, wire, states, fs, records) && states[0] == h
  {
    states, records := [h], [];
    for n := 0 to |fs|
      invariant |states| == n + 1 && |records| == n && states[0] == h
      invariant Usable(states[n]) && !states[n].cipher.NullCipher? && states[n].version == h.version
      invariant states[n].seqno == h.seqno + n
      invariant forall i :: 0 <= i < n ==> SealsStep(p, wire, states[i], fs[i], states[i + 1], records[i])
    {
      var next, record := RecordRoundTrip(p, states[n], wire, fs[n]);
      states, records := states + [next], records + [record];
    }
  }
}
