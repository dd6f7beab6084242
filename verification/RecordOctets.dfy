/**
 * The octets of every protected record and the exact condition under which one is opened, written out
 * from sections 6.2.3 of RFC 5246 and 5.2 of RFC 8446 with nothing but the primitives: what is
 * authenticated, under which sequence number, what is encrypted, and what is sent in the clear.
 */
module RecordOctets {
  import opened Bytes
  import opened Padding
  import opened RecordLayer
  import opened RoundTrip
  import opened RecordWriter

  /** Sequence number, type, version, length and content: what MACs and additional data cover. */
  function Covered(seqno: nat, typ: byte, version: bytes, content: bytes): bytes {
    Be(seqno, 8) + [typ] + version + Be(|content|, 2) + content
  }

  /** A record: its five octets of header and its fragment. */
  function Record(typ: byte, version: bytes, fragment: bytes): bytes {
    [typ] + version + Be(|fragment|, 2) + fragment
  }

  /** The octets of a key stream from a position on. */
  function StreamFrom(p: Primitives, key: bytes, start: nat, n: nat): (b: bytes)
    ensures |b| == n
  {
    seq(n, i requires 0 <= i => p.keystream(key, start + i))
  }

  /** The nonce of TLS 1.3 and of ChaCha20-Poly1305: the mask, its last eight octets xored with the counter. */
  function MaskedNonce(mask: bytes, seqno: nat): bytes
    requires |mask| == 12
  {
    seq(12, i requires 0 <= i < 12 => if i < 4 then mask[i] else mask[i] ^ Be(seqno, 8)[i - 4])
  }

  lemma TwoOctets(n: nat)
    ensures Be(n, 2) == U16(n)
  {
    assert Be(n, 1) == Be(n / 256, 0) + [Low(n)];
    assert Be(n / 256, 1) == Be(n / 256 / 256, 0) + [Low(n / 256)];
  }

  lemma HeaderOctets(typ: byte, version: nat, n: nat)
    ensures Header(typ, version, n) == [typ] + Be(version, 2) + Be(n, 2)
    ensures Header(typ, version, n)[1..3] == Be(version, 2) && Header(typ, version, n)[0] == typ
  {
    TwoOctets(version);
    TwoOctets(n);
  }

  lemma FramedOctets(outer: byte, typ: byte, version: nat, n: nat, explicit: bytes, body: bytes)
    ensures Frame(outer, Header(typ, version, n), explicit, body) == Record(outer, Be(version, 2), explicit + body)
  {
    HeaderOctets(typ, version, n);
    TwoOctets(|explicit| + |body|);
  }

  lemma MacCovers(p: Primitives, h: Half, typ: byte, version: nat, content: bytes)
    requires h.mac.Some?
    ensures MacOver(p, h, Header(typ, version, |content|), content)
         == p.hmac(h.mac.value.key, h.mac.value.size, Covered(h.seqno, typ, Be(version, 2), content))
  {
    HeaderOctets(typ, version, |content|);
    assert Be(h.seqno, 8) + Header(typ, version, |content|) + content == Covered(h.seqno, typ, Be(version, 2), content);
  }

  /** Framing a protected fragment and counting it. */
  lemma FragmentSealed(p: Primitives, h: Half, wire: nat, f: Fragment, cipher: Cipher, explicit: bytes, body: bytes)
    requires Usable(h) && !h.cipher.NullCipher? && h.seqno + 1 < SEQ_LIMIT
    requires explicit == ExplicitNonce(h, f.rand)
    requires (cipher, body) == Protect(p, h, Header(f.typ, wire, |f.payload|), f.payload, explicit)
    ensures EncryptFragment(p, h, wire, f)
         == Sealed(h.(cipher := cipher, seqno := h.seqno + 1), Record(OuterType(h, f.typ), Be(wire, 2), explicit + body))
  {
    HeaderOctets(f.typ, wire, |f.payload|);
    FramedOctets(OuterType(h, f.typ), f.typ, wire, |f.payload|, explicit, body);
  }

  lemma StreamProtects(p: Primitives, h: Half, header: bytes, payload: bytes, mac: bytes)
    requires Usable(h) && h.cipher.StreamCipher? && |header| == RECORD_HEADER_LEN && mac == MacOver(p, h, header, payload)
    ensures var (StreamCipher(key, used), t) := (h.cipher, payload + mac);
            Protect(p, h, header, payload, []) == (StreamCipher(key, used + |t|), Xor(t, StreamFrom(p, key, used, |t|)))
  {
    var (StreamCipher(key, used), t) := (h.cipher, payload + mac);
    assert Keystream(p, key, used, |t|) == StreamFrom(p, key, used, |t|);
  }

  /** Stream suites send the content and its MAC under the key stream, and move along it. */
  lemma StreamRecordOctets(p: Primitives, h: Half, wire: nat, f: Fragment)
    requires Usable(h) && h.cipher.StreamCipher? && h.seqno + 1 < SEQ_LIMIT
    ensures
      var StreamCipher(key, used) := h.cipher;
      var t := f.payload + p.hmac(h.mac.value.key, h.mac.value.size, Covered(h.seqno, f.typ, Be(wire, 2), f.payload));
      EncryptFragment(p, h, wire, f)
      == Sealed(h.(cipher := StreamCipher(key, used + |t|), seqno := h.seqno + 1),
                Record(f.typ, Be(wire, 2), Xor(t, StreamFrom(p, key, used, |t|))))
  {
    var mac := p.hmac(h.mac.value.key, h.mac.value.size, Covered(h.seqno, f.typ, Be(wire, 2), f.payload));
    var t := f.payload + mac;
    MacCovers(p, h, f.typ, wire, f.payload);
    StreamProtects(p, h, Header(f.typ, wire, |f.payload|), f.payload, mac);
    var body := Xor(t, StreamFrom(p, h.cipher.key, h.cipher.used, |t|));
    FragmentSealed(p, h, wire, f, StreamCipher(h.cipher.key, h.cipher.used + |t|), [], body);
    assert [] + body == body;
  }

  /** The plaintext of a CBC record: n octets of value n - 1 fill the last block, at least one of them. */
  function FilledUp(t: bytes, blockSize: nat): bytes
    requires blockSize > 0
  {
    var n := blockSize - |t| % blockSize;
    t + Repeat(Low(n - 1), n)
  }

  lemma CbcProtects(p: Primitives, h: Half, header: bytes, payload: bytes, mac: bytes, sent: bytes)
    requires Lawful(p) && Usable(h) && h.cipher.CbcCipher? && |header| == RECORD_HEADER_LEN
    requires mac == MacOver(p, h, header, payload) && |sent| == ExplicitNonceLen(h)
    ensures var (iv, c) := (h.cipher.iv, CbcBody(p, h, payload, mac, sent));
            |c| >= |iv| && Protect(p, h, header, payload, sent) == (CbcCipher(h.cipher.key, c[|c| - |iv|..]), c)
  {
    var (iv, t) := (h.cipher.iv, payload + mac);
    assert PadBlocks(t, |iv|) == FilledUp(t, |iv|);
    assert |PadBlocks(t, |iv|)| % |iv| == 0;
    WholeBlocks(|PadBlocks(t, |iv|)|, |iv|);
  }

  lemma WholeBlocks(n: nat, block: nat)
    requires n > 0 && block > 0 && n % block == 0
    ensures n >= block
  {
  }

  /** The IV sent in front: as many octets of randomness as a block has, from TLS 1.1 on. */
  function SentIv(h: Half, rand: Entropy): bytes
    requires Usable(h) && h.cipher.CbcCipher?
  {
    if h.version >= VERSION_TLS11 then rand[..|h.cipher.iv|] else []
  }

  /** The ciphertext of the content and its MAC, under the IV sent or else the last ciphertext block. */
  function CbcBody(p: Primitives, h: Half, payload: bytes, mac: bytes, sent: bytes): bytes
    requires Usable(h) && h.cipher.CbcCipher?
  {
    p.cbcEncrypt(h.cipher.key, if h.version >= VERSION_TLS11 then sent else h.cipher.iv, FilledUp(payload + mac, |h.cipher.iv|))
  }

  /** CBC suites encrypt the content, its MAC and the padding; from TLS 1.1 on under an IV that is sent first. */
  lemma CbcRecordOctets(p: Primitives, h: Half, wire: nat, f: Fragment)
    requires Lawful(p) && Usable(h) && h.cipher.CbcCipher? && h.seqno + 1 < SEQ_LIMIT
    ensures
      var mac := p.hmac(h.mac.value.key, h.mac.value.size, Covered(h.seqno, f.typ, Be(wire, 2), f.payload));
      var (iv, sent) := (h.cipher.iv, SentIv(h, f.rand));
      var c := CbcBody(p, h, f.payload, mac, sent);
      |c| >= |iv| && EncryptFragment(p, h, wire, f)
      == Sealed(h.(cipher := CbcCipher(h.cipher.key, c[|c| - |iv|..]), seqno := h.seqno + 1), Record(f.typ, Be(wire, 2), sent + c))
  {
    var mac := p.hmac(h.mac.value.key, h.mac.value.size, Covered(h.seqno, f.typ, Be(wire, 2), f.payload));
    var sent := SentIv(h, f.rand);
    MacCovers(p, h, f.typ, wire, f.payload);
    CbcProtects(p, h, Header(f.typ, wire, |f.payload|), f.payload, mac, sent);
    var c := CbcBody(p, h, f.payload, mac, sent);
    FragmentSealed(p, h, wire, f, CbcCipher(h.cipher.key, c[|c| - |h.cipher.iv|..]), sent, c);
  }

  /** GCM suites of TLS 1.2 send the sequence number and seal the content under salt and sequence number. */
  lemma PrefixRecordOctets(p: Primitives, h: Half, wire: nat, f: Fragment)
    requires Usable(h) && h.cipher.PrefixNonceAead? && h.seqno + 1 < SEQ_LIMIT
    ensures
      var number := Be(h.seqno, 8);
      var data := number + [f.typ] + Be(wire, 2) + Be(|f.payload|, 2);
      EncryptFragment(p, h, wire, f)
      == Sealed(h.(seqno := h.seqno + 1),
                Record(f.typ, Be(wire, 2), number + p.seal(h.cipher.key, h.cipher.fixed + number, f.payload, data)))
  {
    var number := Be(h.seqno, 8);
    HeaderOctets(f.typ, wire, |f.payload|);
    assert number + Header(f.typ, wire, |f.payload|) == number + [f.typ] + Be(wire, 2) + Be(|f.payload|, 2);
    FramedOctets(f.typ, f.typ, wire, |f.payload|, number, Protect(p, h, Header(f.typ, wire, |f.payload|), f.payload, number).1);
  }

  lemma MaskedNonceIsWrapped(c: Cipher, seqno: nat)
    requires c.XorNonceAead? && |c.mask| == 12
    ensures WrappedNonce(c, Be(seqno, 8)) == MaskedNonce(c.mask, seqno)
  {
    var wide := [0, 0, 0, 0] + Be(seqno, 8);
    assert |WrappedNonce(c, Be(seqno, 8))| == 12;
    forall i | 0 <= i < 12
      ensures WrappedNonce(c, Be(seqno, 8))[i] == MaskedNonce(c.mask, seqno)[i]
    {
      assert c.mask[i] ^ 0 == c.mask[i];
      assert wide[i] == if i < 4 then 0 else Be(seqno, 8)[i - 4];
    }
  }

  /**
   * ChaCha20-Poly1305 before TLS 1.3 seals the content under the masked nonce; TLS 1.3 seals content and
   * type, claims to send application data, and authenticates the header as sent.
   */
  lemma MaskedRecordOctets(p: Primitives, h: Half, wire: nat, f: Fragment)
    requires Lawful(p) && Usable(h) && h.cipher.XorNonceAead? && h.seqno + 1 < SEQ_LIMIT
    ensures
      var nonce := MaskedNonce(h.cipher.mask, h.seqno);
      var early := p.seal(h.cipher.key, nonce, f.payload, Be(h.seqno, 8) + [f.typ] + Be(wire, 2) + Be(|f.payload|, 2));
      var modern := p.seal(h.cipher.key, nonce, f.payload + [f.typ], [23] + Be(wire, 2) + Be(|f.payload| + 17, 2));
      EncryptFragment(p, h, wire, f)
      == Sealed(h.(seqno := h.seqno + 1),
                if h.version == VERSION_TLS13 then Record(23, Be(wire, 2), modern) else Record(f.typ, Be(wire, 2), early))
  {
    MaskedNonceIsWrapped(h.cipher, h.seqno);
    var header := Header(f.typ, wire, |f.payload|);
    HeaderOctets(f.typ, wire, |f.payload|);
    TwoOctets(|f.payload| + 17);
    assert Be(h.seqno, 8) + header == Be(h.seqno, 8) + [f.typ] + Be(wire, 2) + Be(|f.payload|, 2);
    assert InnerHeader(header, |f.payload| + 17) == [23] + Be(wire, 2) + Be(|f.payload| + 17, 2);
    var body := Protect(p, h, header, f.payload, []).1;
    assert [] + body == body;
    FramedOctets(OuterType(h, f.typ), f.typ, wire, |f.payload|, [], body);
  }

  /**
   * The version field of every record sealed by a connection: 3.1 before a version is settled, the version
   * itself up to TLS 1.2, and 3.3 for TLS 1.3.
   */
  lemma VersionOctets(p: Primitives, vers: nat, h: Half, f: Fragment, next: Half, record: bytes)
    requires SealsStep(p, WireVersion(vers), h, f, next, record) && (vers == 0 || VERSION_TLS10 <= vers <= VERSION_TLS13)
    ensures |record| >= RECORD_HEADER_LEN
    ensures record[1..3] == if vers == 0 then [3, 1] else if vers == VERSION_TLS13 then [3, 3] else [3, Low(vers)]
  {
    SealedVersion(p, WireVersion(vers), h, f, next, record);
    MajorThree(WireVersion(vers));
  }

  lemma MajorThree(wire: nat)
    requires wire == VERSION_TLS10 || wire == VERSION_TLS11 || wire == VERSION_TLS12
    ensures Be(wire, 2) == [3, Low(wire)] && Low(VERSION_TLS10) == 1 && Low(VERSION_TLS12) == 3
  {
    TwoOctets(wire);
    assert wire / 256 == 3;
    assert Low(3) == 3;
  }

  lemma SealedVersion(p: Primitives, wire: nat, h: Half, f: Fragment, next: Half, record: bytes)
    requires SealsStep(p, wire, h, f, next, record)
    ensures |record| >= RECORD_HEADER_LEN && record[1..3] == Be(wire, 2)
  {
    HeaderOctets(f.typ, wire, |f.payload|);
    if !h.cipher.NullCipher? {
      var explicit := ExplicitNonce(h, f.rand);
      var (cipher, body) := Protect(p, h, Header(f.typ, wire, |f.payload|), f.payload, explicit);
      FragmentSealed(p, h, wire, f, cipher, explicit, body);
      assert record == Record(OuterType(h, f.typ), Be(wire, 2), explicit + body);
    }
  }

  // What is opened.

  /** The octets that authenticate the first n octets of t as the content of a received record. */
  lemma ReceivedMacCovers(p: Primitives, h: Half, record: bytes, content: bytes)
    requires h.mac.Some? && |record| >= RECORD_HEADER_LEN
    ensures MacOver(p, h, record[..3] + U16(|content|), content)
         == p.hmac(h.mac.value.key, h.mac.value.size, Covered(h.seqno, record[0], record[1..3], content))
  {
    TwoOctets(|content|);
    assert record[..3] == [record[0]] + record[1..3];
    assert Be(h.seqno, 8) + (record[..3] + U16(|content|)) + content == Covered(h.seqno, record[0], record[1..3], content);
  }

  /**
   * A record of a stream suite is opened exactly if what is left of it after the key stream ends in the
   * MAC of everything before, at the receiver's own sequence number.
   */
  lemma StreamOpensExactly(p: Primitives, h: Half, record: bytes)
    requires Usable(h) && h.cipher.StreamCipher? && h.seqno + 1 < SEQ_LIMIT && |record| >= RECORD_HEADER_LEN
    ensures
      var (StreamCipher(key, used), size, n) := (h.cipher, h.mac.value.size, |record| - RECORD_HEADER_LEN);
      var t := Xor(record[RECORD_HEADER_LEN..], StreamFrom(p, key, used, n));
      Decrypt(p, h, record)
      == if n >= size && t[n - size..] == p.hmac(h.mac.value.key, size, Covered(h.seqno, record[0], record[1..3], t[..n - size]))
         then Opened(h.(cipher := StreamCipher(key, used + n), seqno := h.seqno + 1), t[..n - size], record[0])
         else Rejected(ALERT_BAD_RECORD_MAC)
  {
    var (StreamCipher(key, used), size, n) := (h.cipher, h.mac.value.size, |record| - RECORD_HEADER_LEN);
    assert Keystream(p, key, used, n) == StreamFrom(p, key, used, n);
    var t := Xor(record[RECORD_HEADER_LEN..], StreamFrom(p, key, used, n));
    MacAtEnd(p, h, StreamCipher(key, used + n), record, t);
  }

  /** The MAC check without padding. */
  lemma MacAtEnd(p: Primitives, h: Half, cipher: Cipher, record: bytes, t: bytes)
    requires h.mac.Some? && |record| >= RECORD_HEADER_LEN
    ensures
      var (n, size) := (|t|, h.mac.value.size);
      CheckMac(p, h, cipher, record, t, 0, 255)
      == if n >= size && t[n - size..] == p.hmac(h.mac.value.key, size, Covered(h.seqno, record[0], record[1..3], t[..n - size]))
         then Plain(cipher, t[..n - size], record[0])
         else Bad(ALERT_BAD_RECORD_MAC)
  {
    var (n, size) := (|t|, h.mac.value.size);
    if n >= size {
      ReceivedMacCovers(p, h, record, t[..n - size]);
      assert t[n - size..n - size + size] == t[n - size..];
    }
  }

  /** Good padding of t: it ends in n + 1 octets of value n. */
  predicate PaddedBy(t: bytes, n: nat) {
    n < 256 && n < |t| && forall i :: |t| - n - 1 <= i < |t| ==> t[i] == Low(n)
  }

  lemma PaddedExactly(t: bytes)
    requires t != []
    ensures PlainPadding(t).1 == 255 <==> PaddedBy(t, t[|t| - 1] as int)
    ensures PlainPadding(t).1 == 255 ==> PlainPadding(t).0 == t[|t| - 1] as int + 1
  {
  }

  /** The plaintext of a received CBC record, under the IV in front of it or the last ciphertext block. */
  function CbcBlocks(p: Primitives, h: Half, body: bytes): bytes
    requires h.cipher.CbcCipher? && (h.version >= VERSION_TLS11 ==> |body| >= |h.cipher.iv|)
  {
    var CbcCipher(key, iv) := h.cipher;
    if h.version >= VERSION_TLS11 then p.cbcDecrypt(key, body[..|iv|], body[|iv|..]) else p.cbcDecrypt(key, iv, body)
  }

  /** Whole blocks, enough of them for the IV if there is one, a MAC and one octet of padding. */
  predicate CbcLengthOk(h: Half, n: nat)
    requires Usable(h) && h.cipher.CbcCipher?
  {
    var block := |h.cipher.iv|;
    n % block == 0 && n >= (if h.version >= VERSION_TLS11 then block else 0) + h.mac.value.size + 1
  }

  lemma CbcLengthExactly(h: Half, n: nat)
    requires Usable(h) && h.cipher.CbcCipher?
    ensures CbcLengthOk(h, n) <==>
      n % |h.cipher.iv| == 0 && n >= ExplicitNonceLen(h) + RoundUp(h.mac.value.size + 1, |h.cipher.iv|)
  {
  }

  /** Where the content of a CBC plaintext ends: the source takes 0 where padding and MAC do not fit. */
  function ContentEnd(t: bytes, size: nat): nat
    requires t != []
  {
    var n := |t| - size - (t[|t| - 1] as int + 1);
    if n < 0 then 0 else n
  }

  /** The plaintext is well padded and has, before the padding, the MAC of its content at this sequence number. */
  predicate EndsInMac(p: Primitives, h: Half, record: bytes, t: bytes)
    requires h.mac.Some? && |record| >= RECORD_HEADER_LEN && |t| > h.mac.value.size
  {
    var (n, size) := (ContentEnd(t, h.mac.value.size), h.mac.value.size);
    && PaddedBy(t, t[|t| - 1] as int)
    && t[n..n + size] == p.hmac(h.mac.value.key, size, Covered(h.seqno, record[0], record[1..3], t[..n]))
  }

  lemma MacCheckedExactly(p: Primitives, h: Half, cipher: Cipher, record: bytes, t: bytes)
    requires h.mac.Some? && |record| >= RECORD_HEADER_LEN && |t| > h.mac.value.size
    ensures CheckMac(p, h, cipher, record, t, PlainPadding(t).0, PlainPadding(t).1)
         == if EndsInMac(p, h, record, t) then Plain(cipher, t[..ContentEnd(t, h.mac.value.size)], record[0])
            else Bad(ALERT_BAD_RECORD_MAC)
  {
    PaddedExactly(t);
    ReceivedMacCovers(p, h, record, t[..ContentEnd(t, h.mac.value.size)]);
  }

  lemma CbcUnsealsExactly(p: Primitives, h: Half, record: bytes, t: bytes, next: Cipher)
    requires Lawful(p) && Usable(h) && h.cipher.CbcCipher? && |record| >= RECORD_HEADER_LEN
    requires CbcPlaintext(p, h, record) == Some(t) && |t| > h.mac.value.size && next == CbcNext(h.cipher, record)
    ensures UnsealCbc(p, h, record)
         == if EndsInMac(p, h, record, t) then Plain(next, t[..ContentEnd(t, h.mac.value.size)], record[0])
            else Bad(ALERT_BAD_RECORD_MAC)
  {
    MacCheckedExactly(p, h, next, record, t);
  }

  lemma CountedOnceOpened(p: Primitives, h: Half, record: bytes, u: Unsealed)
    requires Usable(h) && h.cipher.CbcCipher? && h.seqno + 1 < SEQ_LIMIT && |record| >= RECORD_HEADER_LEN
    requires u == UnsealCbc(p, h, record)
    ensures Decrypt(p, h, record)
         == if u.Plain? then Opened(h.(cipher := u.cipher, seqno := h.seqno + 1), u.plaintext, u.typ) else Rejected(u.alert)
  {
  }

  /**
   * A record of a CBC suite is opened exactly if it has whole blocks and enough of them, its plaintext is
   * well padded, and the octets before the padding are the MAC of the content at the receiver's own
   * sequence number. Everything else is the same bad_record_mac.
   */
  lemma CbcOpensExactly(p: Primitives, h: Half, record: bytes)
    requires Lawful(p) && Usable(h) && h.cipher.CbcCipher? && h.seqno + 1 < SEQ_LIMIT && |record| >= RECORD_HEADER_LEN
    ensures
      var (size, block, body) := (h.mac.value.size, |h.cipher.iv|, record[RECORD_HEADER_LEN..]);
      if !CbcLengthOk(h, |body|) then Decrypt(p, h, record) == Rejected(ALERT_BAD_RECORD_MAC)
      else
        var t := CbcBlocks(p, h, body);
        && |t| > size
        && Decrypt(p, h, record)
           == if EndsInMac(p, h, record, t)
              then Opened(h.(cipher := CbcCipher(h.cipher.key, body[|body| - block..]), seqno := h.seqno + 1),
                          t[..ContentEnd(t, size)], record[0])
              else Rejected(ALERT_BAD_RECORD_MAC)
  {
    var body := record[RECORD_HEADER_LEN..];
    CbcLengthExactly(h, |body|);
    CountedOnceOpened(p, h, record, UnsealCbc(p, h, record));
    if CbcLengthOk(h, |body|) {
      CbcDecrypted(p, h, record);
      WholeBlocks(|body|, |h.cipher.iv|);
      CbcUnsealsExactly(p, h, record, CbcBlocks(p, h, body), CbcCipher(h.cipher.key, body[|body| - |h.cipher.iv|..]));
    }
  }

  lemma CbcDecrypted(p: Primitives, h: Half, record: bytes)
    requires Lawful(p) && Usable(h) && h.cipher.CbcCipher? && |record| >= RECORD_HEADER_LEN
    requires CbcLengthOk(h, |record| - RECORD_HEADER_LEN)
    ensures var body := record[RECORD_HEADER_LEN..];
            var t := CbcBlocks(p, h, body);
            CbcPlaintext(p, h, record) == Some(t) && |t| == |body| - ExplicitNonceLen(h) > h.mac.value.size
  {
    CbcLengthExactly(h, |record| - RECORD_HEADER_LEN);
    var body := record[RECORD_HEADER_LEN..];
    assert body[0..] == body;
    LengthOfBlocks(p, h, body);
  }

  lemma LengthOfBlocks(p: Primitives, h: Half, body: bytes)
    requires Lawful(p) && Usable(h) && h.cipher.CbcCipher? && CbcLengthOk(h, |body|)
    ensures |CbcBlocks(p, h, body)| == |body| - (if h.version >= VERSION_TLS11 then |h.cipher.iv| else 0) > h.mac.value.size
  {
    var CbcCipher(key, iv) := h.cipher;
    if h.version >= VERSION_TLS11 {
      OneBlockLess(|body|, |iv|);
      assert |p.cbcDecrypt(key, body[..|iv|], body[|iv|..])| == |body[|iv|..]|;
    }
  }

  lemma OneBlockLess(n: nat, block: nat)
    requires (block == 8 || block == 16) && n % block == 0 && n >= block
    ensures (n - block) % block == 0
  {
  }

  /** The AEAD suites before TLS 1.3: the record is opened exactly if the AEAD opens it under this nonce and data. */
  lemma EarlyAeadOpensExactly(p: Primitives, h: Half, record: bytes)
    requires Usable(h) && (h.cipher.PrefixNonceAead? || h.cipher.XorNonceAead?) && h.version != VERSION_TLS13
    requires h.seqno + 1 < SEQ_LIMIT && |record| >= RECORD_HEADER_LEN
    ensures
      var body := record[RECORD_HEADER_LEN..];
      var e := if h.cipher.PrefixNonceAead? then 8 else 0;
      if |body| < e then Decrypt(p, h, record) == Rejected(ALERT_BAD_RECORD_MAC)
      else
        var nonce := if h.cipher.PrefixNonceAead? then h.cipher.fixed + body[..8] else MaskedNonce(h.cipher.mask, h.seqno);
        var data := Be(h.seqno, 8) + record[..3] + U16(|body| - e - AEAD_OVERHEAD);
        Decrypt(p, h, record)
        == match p.open(h.cipher.key, nonce, body[e..], data)
           case Some(content) => Opened(h.(seqno := h.seqno + 1), content, record[0])
           case None => Rejected(ALERT_BAD_RECORD_MAC)
  {
    var body := record[RECORD_HEADER_LEN..];
    if h.cipher.XorNonceAead? {
      MaskedNonceIsWrapped(h.cipher, h.seqno);
      assert body[0..] == body;
    }
  }

  /** The inner plaintext of TLS 1.3: content, a non-zero type and zeros. */
  function Inner(content: bytes, typ: byte, zeros: nat): bytes {
    content + [typ] + Repeat(0, zeros)
  }

  lemma {:induction false} UnpaddedInner(content: bytes, typ: byte, zeros: nat)
    requires typ != 0
    ensures Unpadded(Inner(content, typ, zeros)) == |content| + 1
    ensures Inner(content, typ, zeros)[..|content|] == content && Inner(content, typ, zeros)[|content|] == typ
  {
    var t := Inner(content, typ, zeros);
    var n := Unpadded(t);
    assert t[|content|] == typ;
  }

  lemma InnerOf(t: bytes)
    requires Unpadded(t) > 0
    ensures var n := Unpadded(t); t == Inner(t[..n - 1], t[n - 1], |t| - n) && t[n - 1] != 0
  {
    InnerSplit(t, Unpadded(t));
  }

  lemma InnerSplit(t: bytes, n: nat)
    requires 0 < n <= |t| && forall i :: n <= i < |t| ==> t[i] == 0
    ensures t == Inner(t[..n - 1], t[n - 1], |t| - n)
  {
  }

  /**
   * A protected TLS 1.3 record is opened to this content and type exactly if it claims to be application
   * data and the AEAD opens it, under the masked nonce of the receiver's own sequence number and with the
   * received header as additional data, to the content, the type and any number of zeros within the limit.
   * An empty inner plaintext is let through as empty application data.
   */
  lemma Tls13OpensExactly(p: Primitives, h: Half, record: bytes, content: bytes, typ: byte)
    requires Usable(h) && h.cipher.XorNonceAead? && h.version == VERSION_TLS13
    requires h.seqno + 1 < SEQ_LIMIT && |record| >= RECORD_HEADER_LEN && record[0] != TYPE_CHANGE_CIPHER_SPEC
    ensures
      var t := p.open(h.cipher.key, MaskedNonce(h.cipher.mask, h.seqno), record[RECORD_HEADER_LEN..], record[..RECORD_HEADER_LEN]);
      Decrypt(p, h, record) == Opened(h.(seqno := h.seqno + 1), content, typ)
      <==> record[0] == TYPE_APPLICATION_DATA && t.Some? &&
           ((t.value == [] && content == [] && typ == TYPE_APPLICATION_DATA)
            || (typ != 0 && |t.value| <= MAX_PLAINTEXT + 1 && exists zeros: nat :: t.value == Inner(content, typ, zeros)))
  {
    MaskedNonceIsWrapped(h.cipher, h.seqno);
    var body := record[RECORD_HEADER_LEN..];
    assert body[0..] == body;
    var t := p.open(h.cipher.key, MaskedNonce(h.cipher.mask, h.seqno), body, record[..RECORD_HEADER_LEN]);
    if t.Some? {
      InnerExactly(h.cipher, record[0], t.value, content, typ);
    }
  }

  /** A ChangeCipherSpec record is not protected in TLS 1.3: it passes as it is, and is not counted. */
  lemma ChangeCipherSpecPasses(p: Primitives, h: Half, record: bytes)
    requires Usable(h) && h.version == VERSION_TLS13 && |record| >= RECORD_HEADER_LEN && record[0] == 20
    ensures Decrypt(p, h, record) == Opened(h, record[RECORD_HEADER_LEN..], 20)
  {
  }

  lemma InnerExactly(cipher: Cipher, outer: byte, t: bytes, content: bytes, typ: byte)
    ensures OpenInner(cipher, outer, t) == Plain(cipher, content, typ)
      <==> outer == TYPE_APPLICATION_DATA &&
           ((t == [] && content == [] && typ == TYPE_APPLICATION_DATA)
            || (typ != 0 && |t| <= MAX_PLAINTEXT + 1 && exists zeros: nat :: t == Inner(content, typ, zeros)))
  {
    if Unpadded(t) > 0 {
      InnerOf(t);
    }
    if typ != 0 {
      forall zeros: nat | t == Inner(content, typ, zeros)
        ensures Unpadded(t) == |content| + 1 && t[..|content|] == content && t[|content|] == typ
      {
        UnpaddedInner(content, typ, zeros);
      }
    }
  }
}
