/**
 * prf.go, cipher_suites.go and the two establishKeys: how TLS 1.0 to 1.2 cut the key block and install
 * keys on both sides.
 */
module KeyBlock {
  import opened Bytes
  import opened RecordLayer
  import opened Prf

  /** The cipher constructors of the suite table. */
  datatype CipherKind = Rc4 | TripleDes | Aes
  datatype AeadKind = AesGcm | ChaCha20Poly1305

  datatype Flags = Flags(ecdhe: bool, ecSign: bool, tls12: bool, sha384: bool)

  /** cipherSuite: exactly one of cipher (with mac) and aead is set in the table. */
  datatype CipherSuite = CipherSuite(
    id: nat,
    keyLen: nat,
    macLen: nat,
    ivLen: nat,
    flags: Flags,
    cipher: Option<CipherKind>,
    mac: Option<nat>,
    aead: Option<AeadKind>)

  const RSA := Flags(false, false, false, false)
  const RSA12 := Flags(false, false, true, false)
  const RSA384 := Flags(false, false, true, true)
  const ECDHE := Flags(true, false, false, false)
  const ECDHE12 := Flags(true, false, true, false)
  const ECDHE384 := Flags(true, false, true, true)
  const ECDSA := Flags(true, true, false, false)
  const ECDSA12 := Flags(true, true, true, false)
  const ECDSA384 := Flags(true, true, true, true)

  function Gcm(id: nat, keyLen: nat, flags: Flags): CipherSuite {
    CipherSuite(id, keyLen, 0, 4, flags, None, None, Some(AesGcm))
  }

  function ChaCha(id: nat, flags: Flags): CipherSuite {
    CipherSuite(id, 32, 0, 12, flags, None, None, Some(ChaCha20Poly1305))
  }

  function Cbc(id: nat, keyLen: nat, macLen: nat, flags: Flags): CipherSuite {
    CipherSuite(id, keyLen, macLen, 16, flags, Some(Aes), Some(macLen), None)
  }

  function Des3(id: nat, flags: Flags): CipherSuite {
    CipherSuite(id, 24, 20, 8, flags, Some(TripleDes), Some(20), None)
  }

  function Rc4Suite(id: nat, flags: Flags): CipherSuite {
    CipherSuite(id, 16, 20, 0, flags, Some(Rc4), Some(20), None)
  }

  const CIPHER_SUITES: seq<CipherSuite> := [
    ChaCha(0xcca8, ECDHE12), ChaCha(0xcca9, ECDSA12),
    Gcm(0xc02f, 16, ECDHE12), Gcm(0xc02b, 16, ECDSA12), Gcm(0xc030, 32, ECDHE384), Gcm(0xc02c, 32, ECDSA384),
    Cbc(0xc027, 16, 32, ECDHE12), Cbc(0xc013, 16, 20, ECDHE), Cbc(0xc023, 16, 32, ECDSA12), Cbc(0xc009, 16, 20, ECDSA),
    Cbc(0xc014, 32, 20, ECDHE), Cbc(0xc00a, 32, 20, ECDSA),
    Gcm(0x009c, 16, RSA12), Gcm(0x009d, 32, RSA384),
    Cbc(0x003c, 16, 32, RSA12), Cbc(0x002f, 16, 20, RSA), Cbc(0x0035, 32, 20, RSA),
    Des3(0xc012, ECDHE), Des3(0x000a, RSA),
    Rc4Suite(0x0005, RSA), Rc4Suite(0xc011, ECDHE), Rc4Suite(0xc007, ECDSA)]

  /** What installing keys relies on. */
  predicate Sound(s: CipherSuite) {
    && (s.aead.None? <==> s.cipher.Some?) && (s.mac.Some? <==> s.cipher.Some?)
    && (s.aead == Some(AesGcm) ==> s.ivLen == 4) && (s.aead == Some(ChaCha20Poly1305) ==> s.ivLen == 12)
    && (s.cipher == Some(Aes) ==> s.ivLen == 16) && (s.cipher == Some(TripleDes) ==> s.ivLen == 8)
    && (s.mac.Some? ==> s.mac.value == 20 || s.mac.value == 32)
  }

  lemma TableIsSound(i: nat)
    requires i < |CIPHER_SUITES|
    ensures Sound(CIPHER_SUITES[i])
  {
  }

  datatype Keys = Keys(clientMac: bytes, serverMac: bytes, clientKey: bytes, serverKey: bytes, clientIv: bytes, serverIv: bytes)

  const KEY_EXPANSION: bytes := [0x6b, 0x65, 0x79, 0x20, 0x65, 0x78, 0x70, 0x61, 0x6e, 0x73, 0x69, 0x6f, 0x6e]

  /** The key block a suite needs. */
  function KeyMaterial(hs: Hashes, version: nat, s: CipherSuite, master: bytes, clientRandom: bytes, serverRandom: bytes): bytes {
    PrfOutput(hs, version, s.flags.sha384, master, KEY_EXPANSION, serverRandom + clientRandom, 2 * s.macLen + 2 * s.keyLen + 2 * s.ivLen)
  }

  function Slices(block: bytes, macLen: nat, keyLen: nat, ivLen: nat): Keys
    requires |block| == 2 * macLen + 2 * keyLen + 2 * ivLen
  {
    var keys := 2 * macLen;
    var ivs := keys + 2 * keyLen;
    Keys(block[..macLen], block[macLen..keys], block[keys..keys + keyLen], block[keys + keyLen..ivs], block[ivs..ivs + ivLen], block[ivs + ivLen..])
  }

  /** The six slices have the lengths asked for and make up the block, in order. */
  lemma SlicesPartition(block: bytes, macLen: nat, keyLen: nat, ivLen: nat)
    requires |block| == 2 * macLen + 2 * keyLen + 2 * ivLen
    ensures var k := Slices(block, macLen, keyLen, ivLen);
            && |k.clientMac| == |k.serverMac| == macLen && |k.clientKey| == |k.serverKey| == keyLen && |k.clientIv| == |k.serverIv| == ivLen
            && k.clientMac + k.serverMac + k.clientKey + k.serverKey + k.clientIv + k.serverIv == block
  {
  }

  /** keysFromMasterSecret. */
  method KeysFromMasterSecret(hs: Hashes, version: nat, s: CipherSuite, master: bytes, clientRandom: bytes, serverRandom: bytes) returns (k: Keys)
    ensures k == Slices(KeyMaterial(hs, version, s, master, clientRandom, serverRandom), s.macLen, s.keyLen, s.ivLen)
  {
    var buffer := new byte[2 * s.macLen + 2 * s.keyLen + 2 * s.ivLen];
    FillPrf(buffer, hs, version, s.flags.sha384, master, KEY_EXPANSION, serverRandom + clientRandom);
    var block := buffer[..];
    assert block == KeyMaterial(hs, version, s, master, clientRandom, serverRandom);
    k := CutBlock(block, s.macLen, s.keyLen, s.ivLen);
  }

  /** The block is cut from the front, piece by piece. */
  method CutBlock(block: bytes, macLen: nat, keyLen: nat, ivLen: nat) returns (k: Keys)
    requires |block| == 2 * macLen + 2 * keyLen + 2 * ivLen
    ensures k == Slices(block, macLen, keyLen, ivLen)
    ensures k.clientMac + k.serverMac + k.clientKey + k.serverKey + k.clientIv + k.serverIv == block
  {
    var clientMac, serverMac, material := CutTwo(block, macLen);
    var clientKey, serverKey, material1 := CutTwo(material, keyLen);
    var clientIv, serverIv, material2 := CutTwo(material1, ivLen);
    SlicesPartition(block, macLen, keyLen, ivLen);
    assert material1 == block[2 * macLen + 2 * keyLen..];
    return Keys(clientMac, serverMac, clientKey, serverKey, clientIv, serverIv);
  }

  method CutTwo(material: bytes, n: nat) returns (first: bytes, second: bytes, rest: bytes)
    requires 2 * n <= |material|
    ensures first == material[..n] && second == material[n..2 * n] && rest == material[2 * n..]
  {
    first := material[..n];
    var left := material[n..];
    second := left[..n];
    rest := left[n..];
  }

  /** A cipher object; only block ciphers in CBC mode are built for one direction. */
  datatype CipherObject = CipherObject(cipher: Cipher, forReading: Option<bool>)

  function NewCipher(kind: CipherKind, key: bytes, iv: bytes, isRead: bool): CipherObject {
    if kind.Rc4? then CipherObject(StreamCipher(key, 0), None) else CipherObject(CbcCipher(key, iv), Some(isRead))
  }

  function NewAead(kind: AeadKind, key: bytes, iv: bytes): CipherObject {
    CipherObject(if kind.AesGcm? then PrefixNonceAead(key, iv) else XorNonceAead(key, iv), None)
  }

  /** What one direction has pending after prepareCipherSpec. */
  datatype Pending = Pending(key: bytes, iv: bytes, version: nat, cipher: CipherObject, mac: Option<Mac>)

  /** The half-connection after changeCipherSpec. */
  function Activated(p: Pending): Half {
    Half(p.version, p.cipher.cipher, p.mac, 0)
  }

  class Direction {
    var key: bytes
    var iv: bytes
    var version: nat
    var nextCipher: CipherObject
    var nextMac: Option<Mac>

    constructor ()
    {
      key, iv, version, nextCipher, nextMac := [], [], 0, CipherObject(NullCipher, None), None;
    }

    ghost function State(): Pending
      reads this
    {
      Pending(key, iv, version, nextCipher, nextMac)
    }

    /** prepareCipherSpec. */
    method PrepareCipherSpec(version: nat, cipher: CipherObject, mac: Option<Mac>)
      modifies this`version, this`nextCipher, this`nextMac
      ensures State() == old(State()).(version := version, cipher := cipher, mac := mac)
    {
      this.version := version;
      nextCipher := cipher;
      nextMac := mac;
    }
  }

  /** The client's establishKeys; it asks whether the suite has a cipher. */
  method ClientEstablishKeys(input: Direction, output: Direction, version: nat, s: CipherSuite, k: Keys)
    requires input != output && (s.cipher.Some? ==> s.mac.Some?) && (s.cipher.None? ==> s.aead.Some?)
    modifies input, output
    ensures input.State() == Installed(version, s, k.serverKey, k.serverIv, k.serverMac, true)
    ensures output.State() == Installed(version, s, k.clientKey, k.clientIv, k.clientMac, false)
  {
    var clientCipher, serverCipher;
    var clientHash: Option<Mac>, serverHash: Option<Mac> := None, None;
    if s.cipher.Some? {
      clientCipher := NewCipher(s.cipher.value, k.clientKey, k.clientIv, false);
      clientHash := Some(Mac(k.clientMac, s.mac.value));
      serverCipher := NewCipher(s.cipher.value, k.serverKey, k.serverIv, true);
      serverHash := Some(Mac(k.serverMac, s.mac.value));
    } else {
      clientCipher := NewAead(s.aead.value, k.clientKey, k.clientIv);
      serverCipher := NewAead(s.aead.value, k.serverKey, k.serverIv);
    }
    input.key, input.iv := k.serverKey, k.serverIv;
    output.key, output.iv := k.clientKey, k.clientIv;
    input.PrepareCipherSpec(version, serverCipher, serverHash);
    output.PrepareCipherSpec(version, clientCipher, clientHash);
  }

  /** The server's establishKeys; it asks whether the suite has no AEAD. */
  method ServerEstablishKeys(input: Direction, output: Direction, version: nat, s: CipherSuite, k: Keys)
    requires input != output && Sound(s)
    modifies input, output
    ensures input.State() == Installed(version, s, k.clientKey, k.clientIv, k.clientMac, true)
    ensures output.State() == Installed(version, s, k.serverKey, k.serverIv, k.serverMac, false)
  {
    var clientCipher, serverCipher;
    var clientHash: Option<Mac>, serverHash: Option<Mac> := None, None;
    if s.aead.None? {
      clientCipher := NewCipher(s.cipher.value, k.clientKey, k.clientIv, true);
      clientHash := Some(Mac(k.clientMac, s.mac.value));
      serverCipher := NewCipher(s.cipher.value, k.serverKey, k.serverIv, false);
      serverHash := Some(Mac(k.serverMac, s.mac.value));
    } else {
      clientCipher := NewAead(s.aead.value, k.clientKey, k.clientIv);
      serverCipher := NewAead(s.aead.value, k.serverKey, k.serverIv);
    }
    input.key, input.iv := k.clientKey, k.clientIv;
    output.key, output.iv := k.serverKey, k.serverIv;
    input.PrepareCipherSpec(version, clientCipher, clientHash);
    output.PrepareCipherSpec(version, serverCipher, serverHash);
  }

  /** What a direction holds for one side's key, IV and MAC key. */
  function Installed(version: nat, s: CipherSuite, key: bytes, iv: bytes, macKey: bytes, isRead: bool): Pending
    requires (s.cipher.Some? ==> s.mac.Some?) && (s.cipher.None? ==> s.aead.Some?)
  {
    if s.cipher.Some? then Pending(key, iv, version, NewCipher(s.cipher.value, key, iv, isRead), Some(Mac(macKey, s.mac.value)))
    else Pending(key, iv, version, NewAead(s.aead.value, key, iv), None)
  }

  /** The sender of a direction and its receiver: same keys, opposite cipher directions, one record-layer state. */
  predicate Mirrored(sender: Pending, receiver: Pending) {
    && sender.key == receiver.key && sender.iv == receiver.iv && sender.mac == receiver.mac && sender.version == receiver.version
    && sender.cipher.cipher == receiver.cipher.cipher
    && (sender.cipher.forReading.Some? <==> receiver.cipher.forReading.Some?)
    && (sender.cipher.forReading.Some? ==> sender.cipher.forReading == Some(false) && receiver.cipher.forReading == Some(true))
    && Activated(sender) == Activated(receiver) && Usable(Activated(sender)) && !Activated(sender).cipher.NullCipher?
  }

  lemma InstalledMirrors(version: nat, s: CipherSuite, key: bytes, iv: bytes, macKey: bytes)
    requires Sound(s) && |iv| == s.ivLen && version < VERSION_TLS13
    ensures Mirrored(Installed(version, s, key, iv, macKey, false), Installed(version, s, key, iv, macKey, true))
  {
  }

  /** For every suite of the table, what the two establishKeys install is mirrored in both directions. */
  lemma BothSidesMirror(hs: Hashes, version: nat, i: nat, master: bytes, clientRandom: bytes, serverRandom: bytes)
    requires i < |CIPHER_SUITES| && version < VERSION_TLS13
    ensures Sound(CIPHER_SUITES[i])
    ensures var s := CIPHER_SUITES[i];
            var k := Slices(KeyMaterial(hs, version, s, master, clientRandom, serverRandom), s.macLen, s.keyLen, s.ivLen);
            && Mirrored(Installed(version, s, k.clientKey, k.clientIv, k.clientMac, false), Installed(version, s, k.clientKey, k.clientIv, k.clientMac, true))
            && Mirrored(Installed(version, s, k.serverKey, k.serverIv, k.serverMac, false), Installed(version, s, k.serverKey, k.serverIv, k.serverMac, true))
  {
    var s := CIPHER_SUITES[i];
    TableIsSound(i);
    var block := KeyMaterial(hs, version, s, master, clientRandom, serverRandom);
    SlicesPartition(block, s.macLen, s.keyLen, s.ivLen);
    var k := Slices(block, s.macLen, s.keyLen, s.ivLen);
    InstalledMirrors(version, s, k.clientKey, k.clientIv, k.clientMac);
    InstalledMirrors(version, s, k.serverKey, k.serverIv, k.serverMac);
  }

  /** P_hash of section 5 of RFC 5246 to n octets: n blocks are always enough. */
  function ExpandedTo(h: KeyedHash, secret: bytes, seed: bytes, n: nat): (r: bytes)
    ensures |r| == n
  {
    EnoughBlocks(n, h.size);
    PHashIsPrefixOfBlocks(h, secret, seed, n, n);
    Blocks(h, secret, seed, n)[..n]
  }

  lemma EnoughBlocks(n: nat, size: nat)
    requires size > 0
    ensures n <= n * size
  {
    if n > 0 && size > 1 {
      Multiples(1, size, n);
    }
  }

  lemma ExpansionIsPHash(h: KeyedHash, secret: bytes, seed: bytes, n: nat)
    ensures PHash(h, secret, seed, n) == ExpandedTo(h, secret, seed, n)
  {
    EnoughBlocks(n, h.size);
    PHashIsPrefixOfBlocks(h, secret, seed, n, n);
  }

  /** "key expansion" and the two randoms, the server's first. */
  function ExpansionSeed(clientRandom: bytes, serverRandom: bytes): bytes {
    [0x6b, 0x65, 0x79, 0x20, 0x65, 0x78, 0x70, 0x61, 0x6e, 0x73, 0x69, 0x6f, 0x6e] + (serverRandom + clientRandom)
  }

  /**
   * The key block of section 6.3 of RFC 5246 in TLS 1.2, and of section 6.3 of RFC 2246 before: there the
   * expansions under the two halves of the master secret, with MD5 and SHA-1, are xored.
   */
  lemma KeyMaterialIsExpansion(hs: Hashes, version: nat, s: CipherSuite, master: bytes, clientRandom: bytes, serverRandom: bytes)
    ensures var (n, seed, half) := (2 * (s.macLen + s.keyLen + s.ivLen), ExpansionSeed(clientRandom, serverRandom), (|master| + 1) / 2);
            KeyMaterial(hs, version, s, master, clientRandom, serverRandom)
            == if version >= 0x0303 then ExpandedTo(if s.flags.sha384 then hs.sha384 else hs.sha256, master, seed, n)
               else Xor(ExpandedTo(hs.md5, master[..half], seed, n), ExpandedTo(hs.sha1, master[|master| - half..], seed, n))
  {
    var (n, seed, half) := (2 * (s.macLen + s.keyLen + s.ivLen), ExpansionSeed(clientRandom, serverRandom), (|master| + 1) / 2);
    if version >= 0x0303 {
      ExpansionIsPHash(if s.flags.sha384 then hs.sha384 else hs.sha256, master, seed, n);
    } else {
      ExpansionIsPHash(hs.md5, master[..half], seed, n);
      ExpansionIsPHash(hs.sha1, master[|master| - half..], seed, n);
    }
  }

  /** What a suite runs on: its cipher over the key and IV of the direction, from the first record on. */
  function Running(version: nat, s: CipherSuite, key: bytes, iv: bytes, macKey: bytes): Half
    requires Sound(s)
  {
    match s.aead
    case Some(AesGcm) => Half(version, PrefixNonceAead(key, iv), None, 0)
    case Some(ChaCha20Poly1305) => Half(version, XorNonceAead(key, iv), None, 0)
    case None => Half(version, if s.cipher.value.Rc4? then StreamCipher(key, 0) else CbcCipher(key, iv), Some(Mac(macKey, s.mac.value)), 0)
  }

  /**
   * Each key of the block goes where section 6.3 of RFC 5246 sends it, for every suite of the table: the
   * client's MAC key, then the server's, then the client's key, the server's, and the two IVs.
   */
  lemma KeysInstalledInOrder(hs: Hashes, version: nat, i: nat, master: bytes, clientRandom: bytes, serverRandom: bytes)
    requires i < |CIPHER_SUITES|
    ensures Sound(CIPHER_SUITES[i])
    ensures var s := CIPHER_SUITES[i];
            var (m, l, v) := (s.macLen, s.keyLen, s.ivLen);
            var block := KeyMaterial(hs, version, s, master, clientRandom, serverRandom);
            var k := Slices(block, m, l, v);
            && Activated(Installed(version, s, k.clientKey, k.clientIv, k.clientMac, false))
               == Running(version, s, block[2 * m..2 * m + l], block[2 * m + 2 * l..2 * m + 2 * l + v], block[..m])
            && Activated(Installed(version, s, k.serverKey, k.serverIv, k.serverMac, false))
               == Running(version, s, block[2 * m + l..2 * m + 2 * l], block[2 * m + 2 * l + v..], block[m..2 * m])
  {
    TableIsSound(i);
  }
}
