/** ticket.go: sealing and opening session tickets, and how long a ticket stays good under rotation. */
module Tickets {
  import opened Bytes
  import opened TicketKeys

  const NAME_LENGTH := 16
  const BLOCK_SIZE := 16
  const MAC_SIZE := 32

  /** AES-CTR key stream and HMAC-SHA256. */
  datatype TicketOps = TicketOps(keystream: (bytes, bytes, nat) -> bytes, hmac: (bytes, bytes) -> bytes)

  ghost predicate StreamSized(t: TicketOps, key: bytes, iv: bytes, n: nat) {
    |t.keystream(key, iv, n)| == n
  }

  ghost predicate MacSized(t: TicketOps, key: bytes, data: bytes) {
    |t.hmac(key, data)| == MAC_SIZE
  }

  type Ciphers = t: TicketOps | (forall key, iv, n :: StreamSized(t, key, iv, n)) && forall key, data :: MacSized(t, key, data)
    ghost witness TicketOps((_, _, n: nat) => Repeat(0, n), (_, _) => Repeat(0, MAC_SIZE))

  type Iv = b: bytes | |b| == 16 witness Repeat(0, 16)

  function Stream(t: Ciphers, key: bytes, iv: bytes, n: nat): (r: bytes)
    ensures |r| == n
  {
    assert StreamSized(t, key, iv, n);
    t.keystream(key, iv, n)
  }

  function Mac(t: Ciphers, key: bytes, data: bytes): (r: bytes)
    ensures |r| == MAC_SIZE
  {
    assert MacSized(t, key, data);
    t.hmac(key, data)
  }

  /** The part of a ticket its MAC covers. */
  function Sealed(t: Ciphers, key: Key, iv: Iv, state: bytes): bytes {
    key.name + iv + Xor(state, Stream(t, key.aesKey, iv, |state|))
  }

  /** encryptTicket. */
  function SealTicket(t: Ciphers, ring: Ring, iv: Iv, state: bytes): Option<bytes> {
    if ring == [] then None
    else Some(Sealed(t, ring[0], iv, state) + Mac(t, ring[0].hmacKey, Sealed(t, ring[0], iv, state)))
  }

  /** The first key with a name. */
  function FindKey(ring: Ring, name: bytes): (i: nat)
    ensures i <= |ring| && (i < |ring| ==> ring[i].name == name)
    ensures forall j :: 0 <= j < i ==> ring[j].name != name
  {
    if ring == [] then 0 else if ring[0].name == name then 0 else 1 + FindKey(ring[1..], name)
  }

  /** decryptTicket: the plaintext and whether an old key opened it. */
  function OpenTicket(t: Ciphers, ring: Ring, ticket: bytes): Option<(bytes, bool)> {
    if |ticket| < NAME_LENGTH + BLOCK_SIZE + MAC_SIZE then None
    else
      var (body, mac) := (ticket[..|ticket| - MAC_SIZE], ticket[|ticket| - MAC_SIZE..]);
      var (name, iv, ciphertext) := (body[..NAME_LENGTH], body[NAME_LENGTH..NAME_LENGTH + BLOCK_SIZE], body[NAME_LENGTH + BLOCK_SIZE..]);
      var i := FindKey(ring, name);
      if i == |ring| || mac != Mac(t, ring[i].hmacKey, body) then None
      else Some((Xor(ciphertext, Stream(t, ring[i].aesKey, iv, |ciphertext|)), i > 0))
  }

  lemma Cut(name: bytes, iv: bytes, ciphertext: bytes, mac: bytes)
    requires |name| == NAME_LENGTH && |iv| == BLOCK_SIZE && |mac| == MAC_SIZE
    ensures var ticket := name + iv + ciphertext + mac;
            var body := ticket[..|ticket| - MAC_SIZE];
            && body == name + iv + ciphertext && ticket[|ticket| - MAC_SIZE..] == mac
            && body[..NAME_LENGTH] == name && body[NAME_LENGTH..NAME_LENGTH + BLOCK_SIZE] == iv && body[NAME_LENGTH + BLOCK_SIZE..] == ciphertext
  {
    var ticket := name + iv + ciphertext + mac;
    assert ticket[..|ticket| - MAC_SIZE] == name + iv + ciphertext;
  }

  /** A ticket opens under any ring that has its key first among keys of that name, and tells its position. */
  lemma TicketRoundTrip(t: Ciphers, ring: Ring, iv: Iv, state: bytes, other: Ring)
    requires ring != []
    requires var i := FindKey(other, ring[0].name); i < |other| ==> other[i] == ring[0]
    ensures var i := FindKey(other, ring[0].name);
            OpenTicket(t, other, SealTicket(t, ring, iv, state).value) == if i < |other| then Some((state, i > 0)) else None
  {
    var key := ring[0];
    var stream := Stream(t, key.aesKey, iv, |state|);
    Cut(key.name, iv, Xor(state, stream), Mac(t, key.hmacKey, Sealed(t, key, iv, state)));
    XorTwice(state, stream);
  }

  /**
   * The octets of a ticket under the first key: its name, the IV, the state under the key stream, and a MAC
   * over all of that.
   */
  lemma TicketOctets(t: Ciphers, ring: Ring, iv: Iv, state: bytes)
    requires ring != []
    ensures SealTicket(t, ring, iv, state).Some?
    ensures var (ticket, key, n) := (SealTicket(t, ring, iv, state).value, ring[0], |state|);
            && |ticket| == 64 + n && ticket[..16] == key.name && ticket[16..32] == iv
            && |t.keystream(key.aesKey, iv, n)| == n
            && (forall i :: 0 <= i < n ==> ticket[32 + i] == state[i] ^ t.keystream(key.aesKey, iv, n)[i])
            && ticket[32 + n..] == t.hmac(key.hmacKey, ticket[..32 + n])
  {
    var key := ring[0];
    Cut(key.name, iv, Xor(state, Stream(t, key.aesKey, iv, |state|)), Mac(t, key.hmacKey, Sealed(t, key, iv, state)));
  }

  /** Key i of the ring opens the ticket to this state: it is the first with the name in front, and the MAC is its own. */
  ghost predicate OpensUnder(t: Ciphers, ring: Ring, ticket: bytes, i: nat, state: bytes) {
    && |ticket| == 64 + |state| && i < |ring| && ring[i].name == ticket[..16]
    && (forall j :: 0 <= j < i ==> ring[j].name != ticket[..16])
    && ticket[|ticket| - 32..] == t.hmac(ring[i].hmacKey, ticket[..|ticket| - 32])
    && |t.keystream(ring[i].aesKey, ticket[16..32], |state|)| == |state|
    && forall x :: 0 <= x < |state| ==> state[x] == ticket[32 + x] ^ t.keystream(ring[i].aesKey, ticket[16..32], |state|)[x]
  }

  /** A ticket from anyone is opened exactly if a key of the ring does so, and an old key is one that is not first. */
  lemma TicketOpensExactly(t: Ciphers, ring: Ring, ticket: bytes, state: bytes, usedOldKey: bool)
    ensures OpenTicket(t, ring, ticket) == Some((state, usedOldKey)) <==> exists i :: OpensUnder(t, ring, ticket, i, state) && usedOldKey == (i > 0)
  {
    if |ticket| >= 64 {
      var body := ticket[..|ticket| - MAC_SIZE];
      assert body[..16] == ticket[..16] && body[16..32] == ticket[16..32];
      var i := FindKey(ring, ticket[..16]);
      if i < |ring| {
        OpensToState(t, ring, ticket, i, state);
      }
      forall k | OpensUnder(t, ring, ticket, k, state)
        ensures k == i
      {
      }
    }
  }

  lemma OpensToState(t: Ciphers, ring: Ring, ticket: bytes, i: nat, state: bytes)
    requires |ticket| >= 64 && i < |ring| && ring[i].name == ticket[..16] && forall j :: 0 <= j < i ==> ring[j].name != ticket[..16]
    ensures var body := ticket[..|ticket| - MAC_SIZE];
            var plain := Xor(body[32..], Stream(t, ring[i].aesKey, ticket[16..32], |body| - 32));
            OpensUnder(t, ring, ticket, i, state) <==> ticket[|ticket| - MAC_SIZE..] == Mac(t, ring[i].hmacKey, body) && plain == state
  {
    var body := ticket[..|ticket| - MAC_SIZE];
    var plain := Xor(body[32..], Stream(t, ring[i].aesKey, ticket[16..32], |body| - 32));
    assert |plain| == |ticket| - 64;
    assert forall x :: 0 <= x < |plain| ==> body[32..][x] == ticket[32 + x];
  }

  /** The position of a window's first key in a later window. */
  lemma FoundAt(history: Ring, older: Ring, newer: Ring, rotations: nat, later: nat, at: int, seen: int)
    requires Spaced(history) && DistinctNames(history)
    requires WindowOf(history, older, rotations, at) && WindowOf(history, newer, later, seen)
    ensures later < rotations ==> FindKey(newer, older[0].name) == |newer|
    ensures rotations <= later ==>
              var i := FindKey(newer, older[0].name);
              && (i < |newer| ==> i == later - rotations && newer[i] == older[0])
              && (Alive(older[0], seen) ==> i < |newer|)
  {
    var (a, b) := (|history| - rotations, |history| - later);
    assert older[0] == history[a];
    assert forall j :: 0 <= j < |newer| ==> newer[j] == history[b..][j] == history[b + j];
    var i := FindKey(newer, older[0].name);
    if i < |newer| {
      assert history[b + i].name == history[a].name;
    }
    if rotations <= later && a - b < |newer| {
      assert newer[a - b] == history[b + (a - b)];
    }
    if rotations <= later && |newer| <= a - b {
      assert !Alive(history[b..][a - b], seen);
    }
  }

  /**
   * In every run: a ticket one call's keys sealed opens under another call's keys to the same state as
   * long as its key is younger than seven days at that call; an old key was used exactly if there was
   * a rotation in between; and keys from before the sealing key existed do not open it.
   */
  lemma TicketGoodForSevenDays(ss: seq<System>, actions: seq<Action>, n: nat, sealer: Caller, opener: Caller, t: Ciphers, iv: Iv, state: bytes)
    requires Run(ss, actions) && n < |ss| && sealer in ss[n].callers && opener in ss[n].callers
    requires ss[n].callers[sealer].Returned? && ss[n].callers[opener].Returned?
    ensures var (sealed, opening) := (ss[n].callers[sealer], ss[n].callers[opener]);
            && sealed.ring != [] && SealTicket(t, sealed.ring, iv, state).Some?
            && var r := OpenTicket(t, opening.ring, SealTicket(t, sealed.ring, iv, state).value);
               && (opening.rotations < sealed.rotations ==> r == None)
               && (sealed.rotations <= opening.rotations && Alive(sealed.ring[0], opening.at) ==>
                     r == Some((state, sealed.rotations < opening.rotations)))
               && (r.Some? ==> r.value == (state, sealed.rotations < opening.rotations))
  {
    ReachableInv(ss, actions, n);
    var (sealed, opening) := (ss[n].callers[sealer], ss[n].callers[opener]);
    FoundAt(ss[n].history, sealed.ring, opening.ring, sealed.rotations, opening.rotations, sealed.at, opening.at);
    TicketRoundTrip(t, sealed.ring, iv, state, opening.ring);
  }

  method CopyInto(a: array<byte>, from: nat, b: bytes)
    requires from + |b| <= a.Length
    modifies a
    ensures a[..] == old(a[..])[..from] + b + old(a[..])[from + |b|..]
  {
    for i := 0 to |b|
      invariant a[..from + i] == old(a[..])[..from] + b[..i]
      invariant a[from + i..] == old(a[..])[from + i..]
    {
      a[from + i] := b[i];
      assert b[..i + 1] == b[..i] + [b[i]];
      assert a[..from + i + 1] == a[..from + i] + [b[i]];
      assert a[from + i + 1..] == a[from + i..][1..] == old(a[..])[from + i..][1..];
    }
    assert a[..] == a[..from + |b|] + a[from + |b|..];
    assert b[..|b|] == b;
  }

  /** encryptTicket: one buffer, filled piece by piece. */
  method EncryptTicket(t: Ciphers, keys: Ring, iv: Iv, state: bytes) returns (encrypted: array?<byte>)
    ensures encrypted == null <==> keys == []
    ensures encrypted != null ==> fresh(encrypted) && SealTicket(t, keys, iv, state) == Some(encrypted[..])
  {
    if keys == [] {
      return null;
    }
    var n := NAME_LENGTH + BLOCK_SIZE + |state|;
    encrypted := new byte[n + MAC_SIZE];
    var key := keys[0];
    CopyInto(encrypted, 0, key.name);
    CopyInto(encrypted, NAME_LENGTH, iv);
    CopyInto(encrypted, NAME_LENGTH + BLOCK_SIZE, Xor(state, Stream(t, key.aesKey, iv, |state|)));
    assert encrypted[..n] == Sealed(t, key, iv, state);
    CopyInto(encrypted, n, Mac(t, key.hmacKey, encrypted[..n]));
    assert encrypted[..] == Sealed(t, key, iv, state) + Mac(t, key.hmacKey, Sealed(t, key, iv, state));
  }

  /** decryptTicket: the key loop, the MAC, the key stream. */
  method DecryptTicket(t: Ciphers, keys: Ring, encrypted: bytes) returns (r: Option<(bytes, bool)>)
    ensures r == OpenTicket(t, keys, encrypted)
  {
    if |encrypted| < NAME_LENGTH + BLOCK_SIZE + MAC_SIZE {
      return None;
    }
    var body := encrypted[..|encrypted| - MAC_SIZE];
    var name := body[..NAME_LENGTH];
    var i := 0;
    while i < |keys| && keys[i].name != name
      invariant i <= |keys| && forall j :: 0 <= j < i ==> keys[j].name != name
    {
      i := i + 1;
    }
    if i == |keys| || encrypted[|encrypted| - MAC_SIZE..] != Mac(t, keys[i].hmacKey, body) {
      return None;
    }
    var (iv, ciphertext) := (body[NAME_LENGTH..NAME_LENGTH + BLOCK_SIZE], body[NAME_LENGTH + BLOCK_SIZE..]);
    return Some((Xor(ciphertext, Stream(t, keys[i].aesKey, iv, |ciphertext|)), i > 0));
  }
}
