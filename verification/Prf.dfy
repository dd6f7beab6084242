/** prf.go: the pseudo-random functions of TLS 1.0 to 1.2. */
module Prf {
  import opened Bytes

  datatype HashAlgorithm = HashAlgorithm(size: nat, hmac: (bytes, bytes) -> bytes)

  ghost predicate Sized(h: HashAlgorithm, secret: bytes, data: bytes) {
    |h.hmac(secret, data)| == h.size
  }

  /** A keyed hash has a positive size that all its outputs share. */
  type KeyedHash = h: HashAlgorithm | h.size > 0 && forall secret, data :: Sized(h, secret, data)
    ghost witness HashAlgorithm(1, (_, _) => [0])

  function Hmac(h: KeyedHash, secret: bytes, data: bytes): (r: bytes)
    ensures |r| == h.size
  {
    assert Sized(h, secret, data);
    h.hmac(secret, data)
  }

  /** A(0) is the seed, A(i) the HMAC of A(i-1). */
  function A(h: KeyedHash, secret: bytes, seed: bytes, i: nat): bytes {
    if i == 0 then seed else Hmac(h, secret, A(h, secret, seed, i - 1))
  }

  /** The k-th octet of the infinite expansion HMAC(A(1) + seed) + HMAC(A(2) + seed) + ... of section 5 of RFC 5246. */
  function Octet(h: KeyedHash, secret: bytes, seed: bytes, k: nat): byte {
    DivisionInRange(k, h.size);
    Hmac(h, secret, A(h, secret, seed, k / h.size + 1) + seed)[k % h.size]
  }

  lemma DivisionInRange(k: nat, d: nat)
    requires d > 0
    ensures 0 <= k / d && 0 <= k % d < d
  {
  }

  lemma InBlock(k: nat, m: nat, d: nat)
    requires d > 0 && m * d <= k < m * d + d
    ensures k / d == m && k % d == k - m * d
  {
    var q, r := k / d, k % d;
    assert k == q * d + r;
    if q < m {
      Multiples(q, m, d);
    } else if q > m {
      Multiples(m, q, d);
    }
  }

  lemma {:induction false} Multiples(a: nat, b: nat, d: nat)
    requires a < b
    ensures a * d + d <= b * d
    decreases b
  {
    if a + 1 < b {
      Multiples(a, b - 1, d);
    }
  }

  /** The first n octets of the expansion. */
  function PHash(h: KeyedHash, secret: bytes, seed: bytes, n: nat): (r: bytes)
    ensures |r| == n
  {
    seq(n, k requires 0 <= k => Octet(h, secret, seed, k))
  }

  /** HMAC(A(1) + seed) + ... + HMAC(A(m) + seed), as section 5 of RFC 5246 writes it. */
  function Blocks(h: KeyedHash, secret: bytes, seed: bytes, m: nat): bytes {
    if m == 0 then [] else Blocks(h, secret, seed, m - 1) + Hmac(h, secret, A(h, secret, seed, m) + seed)
  }

  /** However many blocks are written out, any output no longer than them is their prefix. */
  lemma {:induction false} PHashIsPrefixOfBlocks(h: KeyedHash, secret: bytes, seed: bytes, m: nat, n: nat)
    requires n <= m * h.size
    ensures |Blocks(h, secret, seed, m)| == m * h.size
    ensures PHash(h, secret, seed, n) == Blocks(h, secret, seed, m)[..n]
    decreases m
  {
    if m > 0 {
      var (front, last) := (Blocks(h, secret, seed, m - 1), Hmac(h, secret, A(h, secret, seed, m) + seed));
      OneBlockMore(m, h.size);
      var whole := (m - 1) * h.size;
      PHashIsPrefixOfBlocks(h, secret, seed, m - 1, if n < whole then n else whole);
      forall k | 0 <= k < n
        ensures Octet(h, secret, seed, k) == (front + last)[k]
      {
        if k < whole {
          assert PHash(h, secret, seed, if n < whole then n else whole)[k] == front[k];
        } else {
          BlockOctets(h, secret, seed, m - 1, k);
        }
      }
    }
  }

  lemma OneBlockMore(m: nat, d: nat)
    requires m > 0
    ensures m * d == (m - 1) * d + d && (m - 1) * d >= 0
  {
  }

  /** One block of output, cut where the result ends. */
  method CopyBlock(result: array<byte>, j: nat, b: bytes)
    requires j <= result.Length
    modifies result
    ensures forall k :: 0 <= k < result.Length ==> result[k] == if j <= k < j + |b| then b[k - j] else old(result[k])
  {
    var i := 0;
    while i < |b| && j + i < result.Length
      invariant i <= |b| && j + i <= result.Length
      invariant forall k :: 0 <= k < result.Length ==> result[k] == if j <= k < j + i then b[k - j] else old(result[k])
    {
      result[j + i] := b[i];
      i := i + 1;
    }
  }

  lemma BlockOctets(h: KeyedHash, secret: bytes, seed: bytes, m: nat, k: nat)
    requires m * h.size <= k < m * h.size + h.size
    ensures Hmac(h, secret, A(h, secret, seed, m + 1) + seed)[k - m * h.size] == Octet(h, secret, seed, k)
  {
    InBlock(k, m, h.size);
  }

  /** pHash: the loop that fills a result of any length. */
  method FillPHash(result: array<byte>, secret: bytes, seed: bytes, h: KeyedHash)
    modifies result
    ensures result[..] == PHash(h, secret, seed, result.Length)
  {
    var a := Hmac(h, secret, seed);
    ghost var m := 0;
    var j := 0;
    assert a == A(h, secret, seed, 1);
    while j < result.Length
      invariant j == m * h.size && a == A(h, secret, seed, m + 1)
      invariant forall k :: 0 <= k < result.Length && k < j ==> result[k] == Octet(h, secret, seed, k)
      decreases result.Length - j
    {
      var b := Hmac(h, secret, a + seed);
      CopyBlock(result, j, b);
      forall k | 0 <= k < result.Length && k < j + |b|
        ensures result[k] == Octet(h, secret, seed, k)
      {
        if k >= j {
          BlockOctets(h, secret, seed, m, k);
        }
      }
      a := Hmac(h, secret, a);
      j := j + |b|;
      m := m + 1;
    }
  }

  /** splitPreMasterSecret: halves that share the middle octet of an odd secret. */
  function Split(secret: bytes): (halves: (bytes, bytes))
    ensures |halves.0| == |halves.1| == (|secret| + 1) / 2
    ensures halves.0 + halves.1[|secret| % 2..] == secret
  {
    (secret[..(|secret| + 1) / 2], secret[|secret| / 2..])
  }

  datatype Hashes = Hashes(md5: KeyedHash, sha1: KeyedHash, sha256: KeyedHash, sha384: KeyedHash)

  /** What the PRF of a version gives: prf10 before TLS 1.2, prf12 with the suite's hash in it. */
  function PrfOutput(hs: Hashes, version: nat, sha384: bool, secret: bytes, text: bytes, seed: bytes, n: nat): (r: bytes)
    ensures |r| == n
  {
    if version < VERSION_TLS12 then
      Xor(PHash(hs.md5, Split(secret).0, text + seed, n), PHash(hs.sha1, Split(secret).1, text + seed, n))
    else PHash(if sha384 then hs.sha384 else hs.sha256, secret, text + seed, n)
  }

  /** prf10: two expansions, the second folded into the first in place. */
  method FillPrf10(result: array<byte>, secret: bytes, text: bytes, seed: bytes, hs: Hashes)
    modifies result
    ensures result[..] == Xor(PHash(hs.md5, Split(secret).0, text + seed, result.Length), PHash(hs.sha1, Split(secret).1, text + seed, result.Length))
  {
    FillPHash(result, Split(secret).0, text + seed, hs.md5);
    ghost var first := result[..];
    var result2 := new byte[result.Length];
    FillPHash(result2, Split(secret).1, text + seed, hs.sha1);
    ghost var second := result2[..];
    for i := 0 to result.Length
      invariant result2[..] == second
      invariant forall k :: 0 <= k < result.Length ==> result[k] == if k < i then first[k] ^ second[k] else first[k]
    {
      result[i] := result[i] ^ result2[i];
    }
  }

  /** prfForVersion and the function it returns. */
  method FillPrf(result: array<byte>, hs: Hashes, version: nat, sha384: bool, secret: bytes, text: bytes, seed: bytes)
    modifies result
    ensures result[..] == PrfOutput(hs, version, sha384, secret, text, seed, result.Length)
  {
    if version < VERSION_TLS12 {
      FillPrf10(result, secret, text, seed, hs);
    } else if sha384 {
      FillPHash(result, secret, text + seed, hs.sha384);
    } else {
      FillPHash(result, secret, text + seed, hs.sha256);
    }
  }
}
