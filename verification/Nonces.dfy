/** cipher_suites.go: the AEAD nonce wrappers, and why no nonce is ever used twice under one key. */
module Nonces {
  import opened Bytes
  import opened RecordLayer
  import opened RoundTrip

  /** Widening an 8-octet nonce to the 12 octets it is combined with. */
  function Widen(nonce: bytes): bytes {
    [0, 0, 0, 0] + nonce
  }

  /** xorNonceAEAD: combines the nonce with its mask in place, and must put the mask back afterwards. */
  class XorNonceWrapper {
    const key: bytes
    const nonceMask: array<byte>

    constructor (key: bytes, mask: bytes)
      requires |mask| == 12
      ensures this.key == key && nonceMask.Length == 12 && nonceMask[..] == mask && fresh(nonceMask)
    {
      this.key := key;
      nonceMask := new byte[12](i requires 0 <= i < 12 => mask[i]);
    }

    method XorInPlace(nonce: bytes)
      requires nonceMask.Length == 12 && |nonce| == 8
      modifies nonceMask
      ensures nonceMask[..] == Xor(old(nonceMask[..]), Widen(nonce))
    {
      ghost var was := nonceMask[..];
      for i := 0 to 8
        invariant forall j :: 0 <= j < 4 ==> nonceMask[j] == was[j]
        invariant forall j :: 4 <= j < 4 + i ==> nonceMask[j] == was[j] ^ nonce[j - 4]
        invariant forall j :: 4 + i <= j < 12 ==> nonceMask[j] == was[j]
      {
        nonceMask[4 + i] := nonceMask[4 + i] ^ nonce[i];
      }
      assert forall j :: 0 <= j < 4 ==> was[j] ^ 0 == was[j];
      assert nonceMask[..] == Xor(was, Widen(nonce));
    }

    method Seal(p: Primitives, nonce: bytes, plaintext: bytes, data: bytes) returns (sealed: bytes)
      requires nonceMask.Length == 12 && |nonce| == 8
      modifies nonceMask
      ensures nonceMask[..] == old(nonceMask[..])
      ensures sealed == p.seal(key, WrappedNonce(XorNonceAead(key, old(nonceMask[..])), nonce), plaintext, data)
    {
      ghost var mask := nonceMask[..];
      XorInPlace(nonce);
      sealed := p.seal(key, nonceMask[..], plaintext, data);
      XorInPlace(nonce);
      XorTwice(mask, Widen(nonce));
    }

    method Open(p: Primitives, nonce: bytes, ciphertext: bytes, data: bytes) returns (result: Option<bytes>)
      requires nonceMask.Length == 12 && |nonce| == 8
      modifies nonceMask
      ensures nonceMask[..] == old(nonceMask[..])
      ensures result == p.open(key, WrappedNonce(XorNonceAead(key, old(nonceMask[..])), nonce), ciphertext, data)
    {
      ghost var mask := nonceMask[..];
      XorInPlace(nonce);
      result := p.open(key, nonceMask[..], ciphertext, data);
      XorInPlace(nonce);
      XorTwice(mask, Widen(nonce));
    }
  }

  /** prefixNonceAEAD: overwrites all but the four fixed octets on every call. */
  class PrefixNonceWrapper {
    const key: bytes
    const nonceBuf: array<byte>

    constructor (key: bytes, prefix: bytes)
      requires |prefix| == 4
      ensures this.key == key && nonceBuf.Length == 12 && nonceBuf[..4] == prefix && fresh(nonceBuf)
    {
      this.key := key;
      nonceBuf := new byte[12](i requires 0 <= i => if i < 4 then prefix[i] else 0);
    }

    method Overwrite(nonce: bytes)
      requires nonceBuf.Length == 12 && |nonce| == 8
      modifies nonceBuf
      ensures nonceBuf[..] == old(nonceBuf[..4]) + nonce
    {
      for i := 0 to 8
        invariant nonceBuf[..4] == old(nonceBuf[..4])
        invariant forall j :: 4 <= j < 4 + i ==> nonceBuf[j] == nonce[j - 4]
      {
        nonceBuf[4 + i] := nonce[i];
      }
    }

    method Seal(p: Primitives, nonce: bytes, plaintext: bytes, data: bytes) returns (sealed: bytes)
      requires nonceBuf.Length == 12 && |nonce| == 8
      modifies nonceBuf
      ensures nonceBuf[..4] == old(nonceBuf[..4])
      ensures sealed == p.seal(key, WrappedNonce(PrefixNonceAead(key, old(nonceBuf[..4])), nonce), plaintext, data)
    {
      Overwrite(nonce);
      sealed := p.seal(key, nonceBuf[..], plaintext, data);
    }

    method Open(p: Primitives, nonce: bytes, ciphertext: bytes, data: bytes) returns (result: Option<bytes>)
      requires nonceBuf.Length == 12 && |nonce| == 8
      modifies nonceBuf
      ensures nonceBuf[..4] == old(nonceBuf[..4])
      ensures result == p.open(key, WrappedNonce(PrefixNonceAead(key, old(nonceBuf[..4])), nonce), ciphertext, data)
    {
      Overwrite(nonce);
      result := p.open(key, nonceBuf[..], ciphertext, data);
    }
  }

  predicate IsAead(c: Cipher) {
    c.PrefixNonceAead? || c.XorNonceAead?
  }

  /** The nonce the next record will be sealed under. */
  function NextNonce(h: Half): bytes
    requires IsAead(h.cipher)
  {
    WrappedNonce(h.cipher, Be(h.seqno, 8))
  }

  /** Sealing a fragment is exactly one call of the AEAD, under the next nonce and the installed key. */
  lemma SealsUnderNextNonce(p: Primitives, h: Half, header: bytes, payload: bytes, rand: Entropy)
    requires Usable(h) && IsAead(h.cipher) && |header| == RECORD_HEADER_LEN
    ensures var (inner, data) := if h.version == VERSION_TLS13
                                 then (payload + [header[0]], InnerHeader(header, |payload| + 1 + AEAD_OVERHEAD))
                                 else (payload, Be(h.seqno, 8) + header);
            Protect(p, h, header, payload, ExplicitNonce(h, rand))
            == (h.cipher, p.seal(h.cipher.key, NextNonce(h), inner, data))
  {
  }

  /** Different sequence numbers give different nonces, under either wrapper. */
  lemma NonceInjective(c: Cipher, m: nat, n: nat)
    requires IsAead(c) && (c.XorNonceAead? ==> |c.mask| == 12)
    requires m < SEQ_LIMIT && n < SEQ_LIMIT
    requires WrappedNonce(c, Be(m, 8)) == WrappedNonce(c, Be(n, 8))
    ensures m == n
  {
    SamePayload(c, Be(m, 8), Be(n, 8));
    PowersOf256();
    BeInjective(m, n, 8);
  }

  lemma SamePayload(c: Cipher, a: bytes, b: bytes)
    requires IsAead(c) && (c.XorNonceAead? ==> |c.mask| == 12) && |a| == |b| == 8
    requires WrappedNonce(c, a) == WrappedNonce(c, b)
    ensures a == b
  {
    if c.XorNonceAead? {
      XorInjective(c.mask, Widen(a), Widen(b));
      assert Widen(a)[4..] == a && Widen(b)[4..] == b;
    } else {
      assert (c.fixed + a)[|c.fixed|..] == a && (c.fixed + b)[|c.fixed|..] == b;
    }
  }

  /** Sealing fails only by running out of sequence numbers. */
  lemma SealFailsOnlyAtWraparound(p: Primitives, wire: nat, h: Half, f: Fragment)
    requires Usable(h) && IsAead(h.cipher)
    ensures EncryptFragment(p, h, wire, f).SealWrapped? <==> h.seqno + 1 == SEQ_LIMIT
    ensures !EncryptFragment(p, h, wire, f).SealWrapped? ==>
      var e := EncryptFragment(p, h, wire, f);
      e.Sealed? && e.half == h.(seqno := h.seqno + 1)
  {
  }

  /**
   * Nonce uniqueness: along every run of seals between two key installations, however long and
   * whatever is sent, no two records are sealed under the same nonce.
   */
  lemma NoncesNeverRepeat(p: Primitives, wire: nat, states: seq<Half>, fs: seq<Fragment>, records: seq<bytes>, i: nat, j: nat)
    requires SealsTo(p, wire, states, fs, records) && IsAead(states[0].cipher)
    requires i < j < |fs|
    ensures states[i].cipher == states[j].cipher == states[0].cipher
    ensures NextNonce(states[i]) != NextNonce(states[j])
  {
    RunCountsUp(p, wire, states, fs, records, i);
    RunCountsUp(p, wire, states, fs, records, j);
    assert SealsStep(p, wire, states[i], fs[i], states[i + 1], records[i]);
    assert SealsStep(p, wire, states[j], fs[j], states[j + 1], records[j]);
    if NextNonce(states[i]) == NextNonce(states[j]) {
      NonceInjective(states[0].cipher, states[i].seqno, states[j].seqno);
      assert false;
    }
  }

  lemma {:induction false} RunCountsUp(p: Primitives, wire: nat, states: seq<Half>, fs: seq<Fragment>, records: seq<bytes>, n: nat)
    requires SealsTo(p, wire, states, fs, records) && IsAead(states[0].cipher) && n <= |fs|
    ensures states[n] == states[0].(seqno := states[0].seqno + n)
  {
    if n > 0 {
      RunCountsUp(p, wire, states, fs, records, n - 1);
      var m := n - 1;
      assert SealsStep(p, wire, states[m], fs[m], states[m + 1], records[m]);
      SealFailsOnlyAtWraparound(p, wire, states[m], fs[m]);
    }
  }
}
