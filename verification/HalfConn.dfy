/** conn.go: the halfConn object, whose methods work in place and are held to the functions of RecordLayer. */
module HalfConn {
  import opened Bytes
  import opened Padding
  import opened RecordLayer

  /** Big-endian addition of one; the all-ones string becomes all zeros. */
  function Inc(b: bytes): (r: bytes)
    ensures |r| == |b|
  {
    if b == [] then []
    else if b[|b| - 1] == 255 then Inc(b[..|b| - 1]) + [0]
    else b[..|b| - 1] + [b[|b| - 1] + 1]
  }

  lemma {:induction false} IncAddsOne(b: bytes)
    ensures Uint(Inc(b)) == if Uint(b) + 1 == Pow256(|b|) then 0 else Uint(b) + 1
  {
    if b != [] {
      var (front, last) := (b[..|b| - 1], b[|b| - 1]);
      IncAddsOne(front);
      UintBound(front);
      var r := Inc(b);
      assert r[..|r| - 1] == if last == 255 then Inc(front) else front;
      if last != 255 {
        NoCarry(last);
      }
    }
  }

  lemma NoCarry(b: byte)
    requires b != 255
    ensures (b + 1) as int == b as int + 1 && b as int < 255
  {
  }

  lemma CarryOut(b: byte)
    requires b + 1 == 0
    ensures b == 255
  {
  }

  /** What the loop leaves when it stops at octet i: there a carry was absorbed, behind it all octets turned over. */
  ghost predicate Turned(was: bytes, now: bytes, i: nat)
    requires |was| == |now| && i < |was|
  {
    && (forall j :: 0 <= j < i ==> now[j] == was[j]) && was[i] != 255 && now[i] == was[i] + 1
    && forall j :: i < j < |was| ==> now[j] == 0 && was[j] == 255
  }

  lemma {:induction false} TurnedIsInc(was: bytes, now: bytes, i: nat)
    requires |was| == |now| && i < |was| && Turned(was, now, i)
    ensures now == Inc(was)
    decreases |was|
  {
    var n := |was| - 1;
    if i < n {
      TurnedIsInc(was[..n], now[..n], i);
      assert now == now[..n] + [0];
    } else {
      assert now == was[..n] + [was[n] + 1];
    }
  }

  lemma CountedUp(was: bytes, now: bytes, i: nat)
    requires |was| == |now| == 8 && i < 8 && (forall j :: 0 <= j < i ==> now[j] == was[j])
    requires now[i] == was[i] + 1 && now[i] != 0 && forall j :: i < j < 8 ==> now[j] == 0 && was[j] == 255
    ensures Uint(now) == Uint(was) + 1 && Uint(was) + 1 != SEQ_LIMIT
  {
    PowersOf256();
    NotTurnedOver(was[i]);
    TurnedIsInc(was, now, i);
    IncAddsOne(was);
    AllOnes(was, i);
  }

  lemma NotTurnedOver(b: byte)
    requires b + 1 != 0
    ensures b != 255
  {
  }

  lemma WrappedAround(was: bytes)
    requires |was| == 8 && forall j :: 0 <= j < 8 ==> was[j] == 255
    ensures Uint(was) + 1 == SEQ_LIMIT
  {
    PowersOf256();
    AllOnes(was, -1);
  }

  predicate FragmentAfter(record: bytes, n: nat, body: bytes) {
    |record| >= RECORD_HEADER_LEN + n && record[RECORD_HEADER_LEN + n..] == body
  }

  lemma AfterNonce(typ: byte, header: bytes, explicit: bytes, body: bytes)
    requires |header| == RECORD_HEADER_LEN
    ensures FragmentAfter(Frame(typ, header, explicit, body), |explicit|, body)
  {
  }

  datatype SealOutcome = Record(record: bytes) | NoRandomness | SealPanic
  datatype OpenOutcome = Content(plaintext: bytes, typ: byte) | Alert(alert: byte) | OpenPanic

  ghost predicate Shows(out: OpenOutcome, cipher: Cipher, u: Unsealed) {
    match u
    case Plain(c, t, typ) => out == Content(t, typ) && cipher == c
    case Bad(alert) => out == Alert(alert)
  }

  /** Fills the space after the MAC with the octet paddingLen - 1. */
  method FillPadding(t: bytes, blockSize: nat) returns (dst: array<byte>)
    requires blockSize == 8 || blockSize == 16
    ensures fresh(dst) && dst[..] == PadBlocks(t, blockSize)
  {
    var paddingLen := blockSize - |t| % blockSize;
    dst := new byte[|t| + paddingLen](i requires 0 <= i => if i < |t| then t[i] else 0);
    var i := |t|;
    while i < dst.Length
      invariant |t| <= i <= dst.Length == |t| + paddingLen
      invariant forall j :: 0 <= j < |t| ==> dst[j] == t[j]
      invariant forall j :: |t| <= j < i ==> dst[j] == Low(paddingLen - 1)
    {
      dst[i] := Low(paddingLen - 1);
      i := i + 1;
    }
    assert dst[..] == PadBlocks(t, blockSize);
  }

  /** The backward scan for the inner content type of a TLS 1.3 record; found is false when all octets are zero. */
  method ScanInner(t: bytes) returns (found: bool, end: nat)
    ensures found <==> Unpadded(t) > 0
    ensures found ==> end == Unpadded(t) - 1
  {
    var i := |t|;
    while i > 0
      invariant 0 <= i <= |t| && Unpadded(t[..i]) == Unpadded(t)
    {
      if t[i - 1] != 0 {
        return true, i - 1;
      }
      assert t[..i][..i - 1] == t[..i - 1];
      i := i - 1;
    }
    return false, 0;
  }

  class HalfConn {
    var version: nat
    var cipher: Cipher
    var mac: Option<Mac>
    const seqNum: array<byte>
    var nextCipher: Cipher
    var nextMac: Option<Mac>

    constructor ()
      ensures Valid() && fresh(seqNum) && Value() == Half(0, NullCipher, None, 0)
    {
      version, cipher, mac := 0, NullCipher, None;
      nextCipher, nextMac := NullCipher, None;
      seqNum := new byte[8](_ => 0);
      new;
      ZeroValue(seqNum[..]);
    }

    ghost predicate Valid()
      reads this, seqNum
    {
      seqNum.Length == 8 && Usable(Value())
    }

    function Value(): Half
      reads this, seqNum
    {
      Half(version, cipher, mac, Uint(seqNum[..]))
    }

    /** incSeq: counts up in place; the only way to fail is to wrap around. */
    method IncSeq() returns (panicked: bool)
      requires seqNum.Length == 8
      modifies seqNum
      ensures panicked <==> old(Uint(seqNum[..])) + 1 == SEQ_LIMIT
      ensures !panicked ==> Uint(seqNum[..]) == old(Uint(seqNum[..])) + 1
    {
      ghost var was := seqNum[..];
      var i := 7;
      while i >= 0
        invariant -1 <= i <= 7
        invariant forall j :: 0 <= j <= i ==> seqNum[j] == was[j]
        invariant forall j :: i < j < 8 ==> seqNum[j] == 0 && was[j] == 255
      {
        seqNum[i] := seqNum[i] + 1;
        if seqNum[i] != 0 {
          CountedUp(was, seqNum[..], i);
          return false;
        }
        CarryOut(was[i]);
        i := i - 1;
      }
      WrappedAround(was);
      return true;
    }

    /** changeCipherSpec: installs the prepared state and restarts the sequence; refused in TLS 1.3 or when unprepared. */
    method ChangeCipherSpec() returns (ok: bool)
      requires Valid()
      requires !nextCipher.NullCipher? && version != VERSION_TLS13 ==> Usable(Half(version, nextCipher, nextMac, 0))
      modifies this, seqNum
      ensures Valid()
      ensures ok <==> !old(nextCipher).NullCipher? && old(version) != VERSION_TLS13
      ensures ok ==> Value() == Half(old(version), old(nextCipher), old(nextMac), 0)
      ensures ok ==> nextCipher == NullCipher && nextMac == None
      ensures !ok ==> Value() == old(Value())
    {
      if nextCipher.NullCipher? || version == VERSION_TLS13 {
        return false;
      }
      cipher, mac := nextCipher, nextMac;
      nextCipher, nextMac := NullCipher, None;
      ResetSeq();
      return true;
    }

    /** setTrafficSecret: a TLS 1.3 key installation. */
    method SetTrafficSecret(key: bytes, iv: bytes)
      requires Valid() && mac.None? && |iv| == 12
      modifies this, seqNum
      ensures Valid() && Value() == Half(old(version), XorNonceAead(key, iv), None, 0)
    {
      cipher := XorNonceAead(key, iv);
      ResetSeq();
    }

    /**
     * explicitNonceLen: in every record sealed in this state, the protected fragment starts that many octets
     * after the header.
     */
    method ExplicitNonceLength() returns (n: nat)
      ensures n == ExplicitNonceLen(Value())
      ensures Valid() ==> forall typ, header, rand, body | |header| == RECORD_HEADER_LEN ::
                FragmentAfter(Frame(typ, header, ExplicitNonce(Value(), rand), body), n, body)
    {
      if Usable(Value()) {
        forall typ, header, rand: Entropy, body | |header| == RECORD_HEADER_LEN
          ensures FragmentAfter(Frame(typ, header, ExplicitNonce(Value(), rand), body), ExplicitNonceLen(Value()), body)
        {
          AfterNonce(typ, header, ExplicitNonce(Value(), rand), body);
        }
      }
      match cipher {
        case NullCipher => n := 0;
        case StreamCipher(_, _) => n := 0;
        case CbcCipher(_, iv) => n := if version >= VERSION_TLS11 then |iv| else 0;
        case PrefixNonceAead(_, _) => n := 8;
        case XorNonceAead(_, _) => n := 0;
      }
    }

    /** The first half of encrypt: the explicit nonce or IV, None when randomness is needed and cannot be read. */
    method DrawNonce(rand: Option<Entropy>) returns (explicit: Option<bytes>)
      requires Valid()
      ensures explicit.None? <==> cipher.CbcCipher? && ExplicitNonceLen(Value()) > 0 && rand.None?
      ensures explicit.Some? ==>
        explicit.value == ExplicitNonce(Value(), if rand.None? then Repeat(0, 16) else rand.value)
    {
      SeqBytes();
      explicit := Some([]);
      var n := ExplicitNonceLength();
      if n > 0 {
        if !cipher.CbcCipher? && n < 16 {
          explicit := Some(seqNum[..]);
        } else if rand.None? {
          explicit := None;
        } else {
          explicit := Some(rand.value[..n]);
        }
      }
    }

    /** The switch of encrypt over the cipher kinds. */
    method ProtectPayload(p: Primitives, header: bytes, payload: bytes, explicit: bytes) returns (typ: byte, body: bytes)
      requires Valid() && |header| == RECORD_HEADER_LEN && !cipher.NullCipher?
      modifies this`cipher
      ensures (cipher, body) == Protect(p, old(Value()), header, payload, explicit)
      ensures typ == OuterType(old(Value()), header[0])
    {
      SeqBytes();
      typ := header[0];
      match cipher {
        case StreamCipher(key, used) =>
          var t := payload + p.hmac(mac.value.key, mac.value.size, seqNum[..] + header + payload);
          body := Xor(t, Keystream(p, key, used, |t|));
          cipher := StreamCipher(key, used + |t|);
        case CbcCipher(key, iv) =>
          var t := payload + p.hmac(mac.value.key, mac.value.size, seqNum[..] + header + payload);
          var dst := FillPadding(t, |iv|);
          body := p.cbcEncrypt(key, if |explicit| > 0 then explicit else iv, dst[..]);
          cipher := CbcCipher(key, LastBlock(body, iv));
        case PrefixNonceAead(key, fixed) =>
          body := p.seal(key, fixed + explicit, payload, seqNum[..] + header);
        case XorNonceAead(key, mask) =>
          var nonce := Xor(mask, [0, 0, 0, 0] + seqNum[..]);
          if version == VERSION_TLS13 {
            typ := TYPE_APPLICATION_DATA;
            var outer := InnerHeader(header, |payload| + 1 + AEAD_OVERHEAD);
            body := p.seal(key, nonce, payload + [header[0]], outer);
          } else {
            body := p.seal(key, nonce, payload, seqNum[..] + header);
          }
      }
    }

    /** encrypt: header is the record built so far, rand what reading randomness would deliver. */
    method EncryptRecord(p: Primitives, header: bytes, payload: bytes, rand: Option<Entropy>) returns (out: SealOutcome)
      requires Valid() && |header| == RECORD_HEADER_LEN
      modifies this`cipher, seqNum
      ensures match Encrypt(p, old(Value()), header, payload, rand)
              case Sealed(half, record) => out == Record(record) && Value() == half
              case RandFailed => out == NoRandomness && Value() == old(Value())
              case SealWrapped => out == SealPanic
    {
      if cipher.NullCipher? {
        return Record(header + payload);
      }
      var explicit := DrawNonce(rand);
      if explicit.None? {
        return NoRandomness;
      }
      var typ, body := ProtectPayload(p, header, payload, explicit.value);
      var record := Frame(typ, header, explicit.value, body);
      var panicked := IncSeq();
      if panicked {
        return SealPanic;
      }
      return Record(record);
    }

    /** The MAC check at the end of decrypt: bad padding and a bad MAC end in the same alert. */
    method VerifyMac(p: Primitives, record: bytes, payload: bytes, paddingLen: nat, paddingGood: byte)
      returns (out: OpenOutcome)
      requires seqNum.Length == 8 && mac.Some? && |record| >= RECORD_HEADER_LEN
      ensures Shows(out, cipher, CheckMac(p, Value(), cipher, record, payload, paddingLen, paddingGood))
      ensures out.Content? || out == Alert(ALERT_BAD_RECORD_MAC)
      ensures out.Content? ==> paddingGood == 255 && |payload| >= mac.value.size
    {
      SeqBytes();
      var size := mac.value.size;
      if |payload| < size {
        return Alert(ALERT_BAD_RECORD_MAC);
      }
      var n := if |payload| - size - paddingLen < 0 then 0 else |payload| - size - paddingLen;
      var remote := payload[n..n + size];
      var local := p.hmac(mac.value.key, size, seqNum[..] + (record[..3] + U16(n)) + payload[..n]);
      if local == remote && paddingGood == 255 {
        return Content(payload[..n], record[0]);
      }
      return Alert(ALERT_BAD_RECORD_MAC);
    }

    /** decrypt for CBC suites up to the MAC check: the decrypted blocks, or None for an impossible length. */
    method DecryptBlocks(p: Primitives, record: bytes) returns (t: Option<bytes>)
      requires Valid() && |record| >= RECORD_HEADER_LEN && cipher.CbcCipher?
      modifies this`cipher
      ensures t == CbcPlaintext(p, old(Value()), record)
      ensures cipher == if t.Some? then CbcNext(old(cipher), record) else old(cipher)
    {
      var payload := record[RECORD_HEADER_LEN..];
      var (key, iv) := (cipher.key, cipher.iv);
      var e := ExplicitNonceLength();
      if |payload| % |iv| != 0 || |payload| < e + RoundUp(mac.value.size + 1, |iv|) {
        return None;
      }
      t := Some(p.cbcDecrypt(key, if e > 0 then payload[..e] else iv, payload[e..]));
      cipher := CbcCipher(key, LastBlock(payload, iv));
    }

    /** decrypt for AEAD suites, including the TLS 1.3 removal of padding. */
    method DecryptSealed(p: Primitives, record: bytes) returns (out: OpenOutcome)
      requires Valid() && |record| >= RECORD_HEADER_LEN && (cipher.PrefixNonceAead? || cipher.XorNonceAead?)
      ensures Shows(out, cipher, UnsealAead(p, Value(), record))
    {
      SeqBytes();
      var payload := record[RECORD_HEADER_LEN..];
      var e := ExplicitNonceLength();
      if |payload| < e {
        return Alert(ALERT_BAD_RECORD_MAC);
      }
      var nonce := if e == 0 then seqNum[..] else payload[..e];
      payload := payload[e..];
      var data := if version == VERSION_TLS13 then record[..RECORD_HEADER_LEN]
                  else seqNum[..] + record[..3] + U16(|payload| - AEAD_OVERHEAD);
      var result := p.open(cipher.key, WrappedNonce(cipher, nonce), payload, data);
      if result.None? {
        return Alert(ALERT_BAD_RECORD_MAC);
      }
      var t := result.value;
      if version != VERSION_TLS13 {
        return Content(t, record[0]);
      }
      if record[0] != TYPE_APPLICATION_DATA {
        return Alert(ALERT_UNEXPECTED_MESSAGE);
      }
      if |t| > MAX_PLAINTEXT + 1 {
        return Alert(ALERT_RECORD_OVERFLOW);
      }
      if t == [] {
        return Content(t, record[0]);
      }
      var found, end := ScanInner(t);
      if !found {
        return Alert(ALERT_UNEXPECTED_MESSAGE);
      }
      return Content(t[..end], t[end]);
    }

    method UnsealStreamRecord(p: Primitives, record: bytes) returns (out: OpenOutcome)
      requires Valid() && cipher.StreamCipher? && |record| >= RECORD_HEADER_LEN
      modifies this`cipher
      ensures Shows(out, cipher, Unseal(p, old(Value()), record))
    {
      var payload := record[RECORD_HEADER_LEN..];
      var (key, used) := (cipher.key, cipher.used);
      payload := Xor(payload, Keystream(p, key, used, |payload|));
      cipher := StreamCipher(key, used + |payload|);
      out := VerifyMac(p, record, payload, 0, 255);
    }

    method UnsealCbcRecord(p: Primitives, record: bytes) returns (out: OpenOutcome)
      requires Valid() && Lawful(p) && cipher.CbcCipher? && RECORD_HEADER_LEN <= |record| < 0x8000_0000
      modifies this`cipher
      ensures Shows(out, cipher, UnsealCbc(p, old(Value()), record))
    {
      CbcPlaintextLength(p, Value(), record);
      var t := DecryptBlocks(p, record);
      if t.None? {
        return Alert(ALERT_BAD_RECORD_MAC);
      }
      var paddingLen, paddingGood := ExtractPadding(t.value);
      out := VerifyMac(p, record, t.value, paddingLen, paddingGood);
    }

    /** The switch of decrypt over the cipher kinds, with the MAC check. */
    method UnsealRecord(p: Primitives, record: bytes) returns (out: OpenOutcome)
      requires Valid() && Lawful(p) && RECORD_HEADER_LEN <= |record| < 0x8000_0000
      modifies this`cipher
      ensures Shows(out, cipher, Unseal(p, old(Value()), record))
    {
      match cipher {
        case NullCipher => out := Content(record[RECORD_HEADER_LEN..], record[0]);
        case StreamCipher(_, _) => out := UnsealStreamRecord(p, record);
        case CbcCipher(_, _) => out := UnsealCbcRecord(p, record);
        case PrefixNonceAead(_, _) => out := DecryptSealed(p, record);
        case XorNonceAead(_, _) => out := DecryptSealed(p, record);
      }
    }

    /**
     * decrypt: the outcome, and on success the new state, are those of the function Decrypt; a
     * rejected record leaves the sequence number alone.
     */
    method DecryptRecord(p: Primitives, record: bytes) returns (out: OpenOutcome)
      requires Valid() && Lawful(p) && RECORD_HEADER_LEN <= |record| < 0x8000_0000
      modifies this`cipher, seqNum
      ensures match Decrypt(p, old(Value()), record)
              case Opened(half, plaintext, typ) => out == Content(plaintext, typ) && Value() == half
              case Rejected(alert) => out == Alert(alert) && unchanged(seqNum)
              case OpenWrapped => out == OpenPanic
    {
      if version == VERSION_TLS13 && record[0] == TYPE_CHANGE_CIPHER_SPEC {
        return Content(record[RECORD_HEADER_LEN..], record[0]);
      }
      out := UnsealRecord(p, record);
      if out.Content? {
        var panicked := IncSeq();
        if panicked {
          return OpenPanic;
        }
      }
    }

    lemma SeqBytes()
      requires seqNum.Length == 8
      ensures Be(Uint(seqNum[..]), 8) == seqNum[..]
    {
      BeUint(seqNum[..]);
    }

    method ResetSeq()
      requires seqNum.Length == 8
      modifies seqNum
      ensures Uint(seqNum[..]) == 0
    {
      for i := 0 to 8
        invariant forall j :: 0 <= j < i ==> seqNum[j] == 0
      {
        seqNum[i] := 0;
      }
      ZeroValue(seqNum[..]);
    }
  }

  lemma CbcPlaintextLength(p: Primitives, h: Half, record: bytes)
    requires Lawful(p) && Usable(h) && h.cipher.CbcCipher? && |record| >= RECORD_HEADER_LEN
    ensures CbcPlaintext(p, h, record).Some? ==> |CbcPlaintext(p, h, record).value| <= |record|
  {
    var (n, e, b) := (|record| - RECORD_HEADER_LEN, ExplicitNonceLen(h), |h.cipher.iv|);
    assert b == 8 || b == 16;
    assert n % b == 0 && n >= e ==> (n - e) % b == 0;
  }

  lemma {:induction false} ZeroValue(b: bytes)
    requires forall i :: 0 <= i < |b| ==> b[i] == 0
    ensures Uint(b) == 0
  {
    if b != [] {
      ZeroValue(b[..|b| - 1]);
    }
  }

  /** The value is all ones exactly when every octet is; a smaller octet at i keeps it below the limit. */
  lemma {:induction false} AllOnes(b: bytes, i: int)
    requires -1 <= i < |b|
    requires forall j :: i < j < |b| ==> b[j] == 255
    requires i >= 0 ==> b[i] != 255
    ensures Uint(b) + 1 == Pow256(|b|) <==> i == -1
  {
    if b != [] {
      var front := b[..|b| - 1];
      UintBound(front);
      if i == |b| - 1 {
        NoCarry(b[i]);
      } else {
        AllOnes(front, i);
      }
    }
  }
}
