/**
 * conn.go: what halfConn.encrypt and halfConn.decrypt compute, as functions on the value of one
 * direction of a connection. The cryptographic primitives are function values; `Lawful` lists
 * the only facts about them that anything here relies on.
 */
module RecordLayer {
  import opened Bytes
  import opened Padding

  const RECORD_HEADER_LEN := 5
  const MAX_PLAINTEXT := 16384
  const MAX_CIPHERTEXT := 16384 + 2048
  const MAX_CIPHERTEXT_TLS13 := 16384 + 256
  const AEAD_OVERHEAD := 16
  const SEQ_LIMIT := 0x1_0000_0000_0000_0000

  const TYPE_CHANGE_CIPHER_SPEC: byte := 20
  const TYPE_ALERT: byte := 21
  const TYPE_HANDSHAKE: byte := 22
  const TYPE_APPLICATION_DATA: byte := 23

  const ALERT_UNEXPECTED_MESSAGE: byte := 10
  const ALERT_BAD_RECORD_MAC: byte := 20
  const ALERT_RECORD_OVERFLOW: byte := 22

  datatype Primitives = Primitives(
    keystream: (bytes, nat) -> byte,                    // key, position
    hmac: (bytes, nat, bytes) -> bytes,                 // key, digest size, message
    cbcEncrypt: (bytes, bytes, bytes) -> bytes,         // key, iv, padded plaintext
    cbcDecrypt: (bytes, bytes, bytes) -> bytes,         // key, iv, ciphertext
    seal: (bytes, bytes, bytes, bytes) -> bytes,        // key, nonce, plaintext, additional data
    open: (bytes, bytes, bytes, bytes) -> Option<bytes> // key, nonce, ciphertext, additional data
  )

  ghost predicate Lawful(p: Primitives) {
    && (forall k, n: nat, m :: |p.hmac(k, n, m)| == n)
    && (forall k, n, t, a :: |p.seal(k, n, t, a)| == |t| + AEAD_OVERHEAD)
    && (forall k, n, t, a :: p.open(k, n, p.seal(k, n, t, a), a) == Some(t))
    && (forall k, iv, t :: |iv| > 0 && |t| % |iv| == 0 ==>
          |p.cbcEncrypt(k, iv, t)| == |t| && p.cbcDecrypt(k, iv, p.cbcEncrypt(k, iv, t)) == t)
    && (forall k, iv, c :: |iv| > 0 && |c| % |iv| == 0 ==> |p.cbcDecrypt(k, iv, c)| == |c|)
  }

  datatype Mac = Mac(key: bytes, size: nat)

  datatype Cipher =
    | NullCipher
    | StreamCipher(key: bytes, used: nat)
    | CbcCipher(key: bytes, iv: bytes)
    | PrefixNonceAead(key: bytes, fixed: bytes)
    | XorNonceAead(key: bytes, mask: bytes)

  /** The value of a halfConn. */
  datatype Half = Half(version: nat, cipher: Cipher, mac: Option<Mac>, seqno: nat)

  /** The cipher and MAC pairs that key installation can produce. */
  predicate Usable(h: Half) {
    && h.seqno < SEQ_LIMIT
    && match h.cipher
       case NullCipher => h.mac.None?
       case StreamCipher(_, _) => h.version < VERSION_TLS13 && h.mac.Some? && (h.mac.value.size == 20 || h.mac.value.size == 32)
       case CbcCipher(_, iv) =>
         h.version < VERSION_TLS13 && (|iv| == 8 || |iv| == 16) && h.mac.Some? && (h.mac.value.size == 20 || h.mac.value.size == 32)
       case PrefixNonceAead(_, fixed) => h.version < VERSION_TLS13 && |fixed| == 4 && h.mac.None?
       case XorNonceAead(_, mask) => |mask| == 12 && h.mac.None?
  }

  function U16(n: int): (b: bytes)
    ensures |b| == 2
  {
    [Low(n / 256), Low(n)]
  }

  /** The header that writeRecordLocked puts in front of a fragment of n octets. */
  function Header(typ: byte, version: nat, n: nat): (b: bytes)
    ensures |b| == RECORD_HEADER_LEN
  {
    [typ] + U16(version) + U16(n)
  }

  function ExplicitNonceLen(h: Half): nat {
    match h.cipher
    case NullCipher => 0
    case StreamCipher(_, _) => 0
    case CbcCipher(_, iv) => if h.version >= VERSION_TLS11 then |iv| else 0
    case PrefixNonceAead(_, _) => 8
    case XorNonceAead(_, _) => 0
  }

  /** The 12-octet nonce an AEAD wrapper hands to the AEAD it wraps. */
  function WrappedNonce(c: Cipher, nonce: bytes): bytes
    requires c.PrefixNonceAead? || c.XorNonceAead?
  {
    if c.PrefixNonceAead? then c.fixed + nonce
    else Xor(c.mask, [0, 0, 0, 0] + nonce)
  }

  function Keystream(p: Primitives, key: bytes, used: nat, n: nat): (b: bytes)
    ensures |b| == n
  {
    seq(n, i requires 0 <= i => p.keystream(key, used + i))
  }

  function MacOver(p: Primitives, h: Half, header: bytes, data: bytes): bytes
    requires h.mac.Some?
  {
    p.hmac(h.mac.value.key, h.mac.value.size, Be(h.seqno, 8) + header + data)
  }

  /** CBC plaintext filled up to a whole number of blocks, at least one octet. */
  function PadBlocks(t: bytes, blockSize: nat): (r: bytes)
    requires blockSize == 8 || blockSize == 16
    ensures |r| % blockSize == 0 && |t| < |r| <= |t| + blockSize
  {
    var n := blockSize - |t| % blockSize;
    assert if blockSize == 8 then (|t| + n) % 8 == 0 else (|t| + n) % 16 == 0;
    t + Repeat(Low(n - 1), n)
  }

  /** The chaining value a CBC mode keeps: its last ciphertext block. */
  function LastBlock(ciphertext: bytes, iv: bytes): bytes {
    if |ciphertext| < |iv| then iv else ciphertext[|ciphertext| - |iv|..]
  }

  datatype EncryptResult =
    | Sealed(half: Half, record: bytes)
    | RandFailed
    | SealWrapped

  /** The explicit nonce or IV: the sequence number for AEADs, drawn octets for CBC. */
  function ExplicitNonce(h: Half, rand: Entropy): (b: bytes)
    requires Usable(h)
    ensures |b| == ExplicitNonceLen(h)
  {
    if ExplicitNonceLen(h) == 0 then []
    else if h.cipher.CbcCipher? then rand[..ExplicitNonceLen(h)]
    else Be(h.seqno, 8)
  }

  /** The protected fragment that follows header and explicit nonce, and the cipher's next state. */
  function Protect(p: Primitives, h: Half, header: bytes, payload: bytes, explicit: bytes): (Cipher, bytes)
    requires Usable(h) && |header| == RECORD_HEADER_LEN
  {
    match h.cipher
    case NullCipher => (h.cipher, payload)
    case StreamCipher(key, used) =>
      var t := payload + MacOver(p, h, header, payload);
      (StreamCipher(key, used + |t|), Xor(t, Keystream(p, key, used, |t|)))
    case CbcCipher(key, iv) =>
      var t := PadBlocks(payload + MacOver(p, h, header, payload), |iv|);
      var c := p.cbcEncrypt(key, if explicit == [] then iv else explicit, t);
      (CbcCipher(key, LastBlock(c, iv)), c)
    case PrefixNonceAead(key, _) =>
      (h.cipher, p.seal(key, WrappedNonce(h.cipher, explicit), payload, Be(h.seqno, 8) + header))
    case XorNonceAead(key, _) =>
      var nonce := WrappedNonce(h.cipher, Be(h.seqno, 8));
      if h.version == VERSION_TLS13 then
        (h.cipher, p.seal(key, nonce, payload + [header[0]], InnerHeader(header, |payload| + 1 + AEAD_OVERHEAD)))
      else
        (h.cipher, p.seal(key, nonce, payload, Be(h.seqno, 8) + header))
  }

  /** A TLS 1.3 protected record always claims to be application data. */
  function InnerHeader(header: bytes, n: nat): (b: bytes)
    requires |header| == RECORD_HEADER_LEN
    ensures |b| == RECORD_HEADER_LEN
  {
    [TYPE_APPLICATION_DATA] + header[1..3] + U16(n)
  }

  /** The finished record: the length field covers nonce, MAC and padding. */
  function Frame(typ: byte, header: bytes, explicit: bytes, body: bytes): (record: bytes)
    requires |header| == RECORD_HEADER_LEN
    ensures |record| == RECORD_HEADER_LEN + |explicit| + |body|
  {
    [typ] + header[1..3] + U16(|explicit| + |body|) + explicit + body
  }

  lemma FrameParts(typ: byte, header: bytes, explicit: bytes, body: bytes)
    requires |header| == RECORD_HEADER_LEN
    ensures var r := Frame(typ, header, explicit, body);
            && r[0] == typ && r[..3] == [typ] + header[1..3] && r[RECORD_HEADER_LEN..] == explicit + body
            && r[..RECORD_HEADER_LEN] == [typ] + header[1..3] + U16(|explicit| + |body|)
  {
  }

  function OuterType(h: Half, typ: byte): byte {
    if h.version == VERSION_TLS13 then TYPE_APPLICATION_DATA else typ
  }

  /** halfConn.encrypt; rand is what reading 16 octets of randomness would give. */
  function Encrypt(p: Primitives, h: Half, header: bytes, payload: bytes, rand: Option<Entropy>): EncryptResult
    requires Usable(h) && |header| == RECORD_HEADER_LEN
  {
    if h.cipher.NullCipher? then Sealed(h, header + payload)
    else if h.cipher.CbcCipher? && ExplicitNonceLen(h) > 0 && rand.None? then RandFailed
    else
      var explicit := ExplicitNonce(h, if rand.None? then Repeat(0, 16) else rand.value);
      var (cipher, body) := Protect(p, h, header, payload, explicit);
      if h.seqno + 1 == SEQ_LIMIT then SealWrapped
      else Sealed(h.(cipher := cipher, seqno := h.seqno + 1), Frame(OuterType(h, header[0]), header, explicit, body))
  }

  /** Position just after the last non-zero octet, or 0. */
  function Unpadded(t: bytes): (n: nat)
    ensures n <= |t|
    ensures n > 0 ==> t[n - 1] != 0
    ensures forall i :: n <= i < |t| ==> t[i] == 0
  {
    if t == [] then 0
    else if t[|t| - 1] != 0 then |t|
    else Unpadded(t[..|t| - 1])
  }

  /** What decrypt has recovered before it counts the record: new cipher state, content and type. */
  datatype Unsealed = Plain(cipher: Cipher, plaintext: bytes, typ: byte) | Bad(alert: byte)

  /** Recovering type and content of a TLS 1.3 record from its inner plaintext. */
  function OpenInner(cipher: Cipher, outer: byte, t: bytes): Unsealed {
    if outer != TYPE_APPLICATION_DATA then Bad(ALERT_UNEXPECTED_MESSAGE)
    else if |t| > MAX_PLAINTEXT + 1 then Bad(ALERT_RECORD_OVERFLOW)
    else if t == [] then Plain(cipher, t, outer)
    else if Unpadded(t) == 0 then Bad(ALERT_UNEXPECTED_MESSAGE)
    else Plain(cipher, t[..Unpadded(t) - 1], t[Unpadded(t) - 1])
  }

  /** The MAC check of stream and CBC suites, after the padding check. */
  function CheckMac(p: Primitives, h: Half, cipher: Cipher, record: bytes, payload: bytes,
                    paddingLen: nat, paddingGood: byte): Unsealed
    requires h.mac.Some? && |record| >= RECORD_HEADER_LEN
  {
    var size := h.mac.value.size;
    if |payload| < size then Bad(ALERT_BAD_RECORD_MAC)
    else
      var n := if |payload| - size - paddingLen < 0 then 0 else |payload| - size - paddingLen;
      if MacOver(p, h, record[..3] + U16(n), payload[..n]) == payload[n..n + size] && paddingGood == 255
      then Plain(cipher, payload[..n], record[0])
      else Bad(ALERT_BAD_RECORD_MAC)
  }

  function RoundUp(a: nat, b: nat): nat
    requires b > 0
  {
    a + (b - a % b) % b
  }

  /** A CBC record with its layer of encryption removed, None if its length is impossible. */
  function CbcPlaintext(p: Primitives, h: Half, record: bytes): Option<bytes>
    requires Usable(h) && h.cipher.CbcCipher? && |record| >= RECORD_HEADER_LEN
  {
    var payload := record[RECORD_HEADER_LEN..];
    var (iv, e) := (h.cipher.iv, ExplicitNonceLen(h));
    if |payload| % |iv| != 0 || |payload| < e + RoundUp(h.mac.value.size + 1, |iv|) then None
    else Some(p.cbcDecrypt(h.cipher.key, if e > 0 then payload[..e] else iv, payload[e..]))
  }

  function UnsealCbc(p: Primitives, h: Half, record: bytes): Unsealed
    requires Usable(h) && h.cipher.CbcCipher? && |record| >= RECORD_HEADER_LEN
  {
    match CbcPlaintext(p, h, record)
    case None => Bad(ALERT_BAD_RECORD_MAC)
    case Some(t) =>
      var (paddingLen, paddingGood) := PlainPadding(t);
      CheckMac(p, h, CbcNext(h.cipher, record), record, t, paddingLen, paddingGood)
  }

  /** The last ciphertext block of a record, an explicit IV being part of the record. */
  function CbcNext(c: Cipher, record: bytes): Cipher
    requires c.CbcCipher? && |record| >= RECORD_HEADER_LEN
  {
    CbcCipher(c.key, LastBlock(record[RECORD_HEADER_LEN..], c.iv))
  }

  function UnsealAead(p: Primitives, h: Half, record: bytes): Unsealed
    requires Usable(h) && (h.cipher.PrefixNonceAead? || h.cipher.XorNonceAead?) && |record| >= RECORD_HEADER_LEN
  {
    var (payload, e) := (record[RECORD_HEADER_LEN..], ExplicitNonceLen(h));
    if |payload| < e then Bad(ALERT_BAD_RECORD_MAC)
    else
      var nonce := WrappedNonce(h.cipher, if e == 0 then Be(h.seqno, 8) else payload[..e]);
      var ciphertext := payload[e..];
      var data := if h.version == VERSION_TLS13 then record[..RECORD_HEADER_LEN]
                  else Be(h.seqno, 8) + record[..3] + U16(|ciphertext| - AEAD_OVERHEAD);
      match p.open(h.cipher.key, nonce, ciphertext, data)
      case None => Bad(ALERT_BAD_RECORD_MAC)
      case Some(t) =>
        if h.version == VERSION_TLS13 then OpenInner(h.cipher, record[0], t) else Plain(h.cipher, t, record[0])
  }

  function Unseal(p: Primitives, h: Half, record: bytes): Unsealed
    requires Usable(h) && |record| >= RECORD_HEADER_LEN
  {
    match h.cipher
    case NullCipher => Plain(h.cipher, record[RECORD_HEADER_LEN..], record[0])
    case StreamCipher(key, used) =>
      var payload := record[RECORD_HEADER_LEN..];
      CheckMac(p, h, StreamCipher(key, used + |payload|), record,
               Xor(payload, Keystream(p, key, used, |payload|)), 0, 255)
    case CbcCipher(_, _) => UnsealCbc(p, h, record)
    case PrefixNonceAead(_, _) => UnsealAead(p, h, record)
    case XorNonceAead(_, _) => UnsealAead(p, h, record)
  }

  datatype DecryptResult =
    | Opened(half: Half, plaintext: bytes, typ: byte)
    | Rejected(alert: byte)
    | OpenWrapped

  /** halfConn.decrypt: an accepted record is counted, with a panic at wraparound. */
  function Decrypt(p: Primitives, h: Half, record: bytes): DecryptResult
    requires Usable(h) && |record| >= RECORD_HEADER_LEN
  {
    if h.version == VERSION_TLS13 && record[0] == TYPE_CHANGE_CIPHER_SPEC then
      Opened(h, record[RECORD_HEADER_LEN..], record[0])
    else
      match Unseal(p, h, record)
      case Bad(alert) => Rejected(alert)
      case Plain(cipher, plaintext, typ) =>
        if h.seqno + 1 == SEQ_LIMIT then OpenWrapped
        else Opened(h.(cipher := cipher, seqno := h.seqno + 1), plaintext, typ)
  }
}
