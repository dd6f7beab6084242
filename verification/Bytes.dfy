/** Octets, big-endian integers and the small containers the other modules share. */
module Bytes {

  type byte = bv8
  type bytes = seq<byte>

  datatype Option<+T> = None | Some(value: T)

  const VERSION_TLS10 := 0x0301
  const VERSION_TLS11 := 0x0302
  const VERSION_TLS12 := 0x0303
  const VERSION_TLS13 := 0x0304

  /** The conversion `byte(n)`: the low eight bits of n. */
  function Low(n: int): byte {
    (n % 256) as bv8
  }

  function Pow256(w: nat): (r: nat)
    ensures r > 0
  {
    if w == 0 then 1 else 256 * Pow256(w - 1)
  }

  /** The w low octets of n, most significant first; higher octets are dropped. */
  function Be(n: nat, w: nat): (b: bytes)
    ensures |b| == w
  {
    if w == 0 then [] else Be(n / 256, w - 1) + [Low(n)]
  }

  /** The value of a big-endian octet string. */
  function Uint(b: bytes): (n: nat)
  {
    if b == [] then 0 else 256 * Uint(b[..|b| - 1]) + b[|b| - 1] as int
  }

  lemma ByteRoundTrip(n: nat)
    requires n < 256
    ensures Low(n) as int == n
  {
    assert n % 256 == n;
  }

  lemma {:induction false} UintBound(b: bytes)
    ensures Uint(b) < Pow256(|b|)
  {
    if b != [] {
      UintBound(b[..|b| - 1]);
    }
  }

  /** Decoding what `Be` wrote gives the number back when it fits the width. */
  lemma {:induction false} UintBe(n: nat, w: nat)
    requires n < Pow256(w)
    ensures Uint(Be(n, w)) == n
  {
    if w > 0 {
      UintBe(n / 256, w - 1);
      var b := Be(n, w);
      assert b[..|b| - 1] == Be(n / 256, w - 1);
      ByteRoundTrip(n % 256);
    }
  }

  lemma LastOctet(u: nat, v: nat)
    requires v < 256
    ensures (256 * u + v) / 256 == u && (256 * u + v) % 256 == v
  {
  }

  lemma SplitLast(n: nat, u: nat, x: byte)
    requires n == 256 * u + x as int
    ensures n / 256 == u && Low(n) == x
  {
    LastOctet(u, x as int);
  }

  /** Every octet string is the encoding of its own value. */
  lemma {:induction false} BeUint(b: bytes)
    ensures Be(Uint(b), |b|) == b
  {
    if b != [] {
      var (front, last) := (b[..|b| - 1], b[|b| - 1]);
      BeUint(front);
      SplitLast(Uint(b), Uint(front), last);
      assert b == front + [last];
    }
  }

  /** `Be` is injective on the numbers that fit. */
  lemma BeInjective(m: nat, n: nat, w: nat)
    requires m < Pow256(w) && n < Pow256(w)
    requires Be(m, w) == Be(n, w)
    ensures m == n
  {
    UintBe(m, w);
    UintBe(n, w);
  }

  lemma PowersOf256()
    ensures Pow256(1) == 0x100 && Pow256(2) == 0x1_0000 && Pow256(3) == 0x100_0000
    ensures Pow256(4) == 0x1_0000_0000 && Pow256(8) == 0x1_0000_0000_0000_0000
  {
    assert Pow256(4) == 256 * Pow256(3);
    assert Pow256(5) == 256 * Pow256(4);
    assert Pow256(6) == 256 * Pow256(5);
    assert Pow256(7) == 256 * Pow256(6);
  }

  /** Octet-wise exclusive or; the longer operand is cut to the shorter one. */
  function Xor(a: bytes, b: bytes): (r: bytes)
    ensures |r| == if |a| < |b| then |a| else |b|
  {
    seq(if |a| < |b| then |a| else |b|, i requires 0 <= i < |a| && i < |b| => a[i] ^ b[i])
  }

  lemma XorTwice(a: bytes, b: bytes)
    requires |a| == |b|
    ensures Xor(Xor(a, b), b) == a
  {
  }

  lemma XorUnmasks(mask: bytes, a: bytes)
    requires |mask| == |a|
    ensures Xor(mask, Xor(mask, a)) == a
  {
  }

  lemma XorInjective(mask: bytes, a: bytes, b: bytes)
    requires |mask| == |a| == |b| && Xor(mask, a) == Xor(mask, b)
    ensures a == b
  {
    XorUnmasks(mask, a);
    XorUnmasks(mask, b);
  }

  function Repeat(b: byte, n: nat): (r: bytes)
    ensures |r| == n
    ensures forall i :: 0 <= i < n ==> r[i] == b
  {
    seq(n, _ => b)
  }

  /** What one draw of randomness delivers; readers use the prefix they need. */
  type Entropy = b: bytes | |b| == 16 witness Repeat(0, 16)

  function Concat(parts: seq<bytes>): bytes {
    if parts == [] then [] else parts[0] + Concat(parts[1..])
  }

  lemma {:induction false} ConcatAppend(xs: seq<bytes>, ys: seq<bytes>)
    ensures Concat(xs + ys) == Concat(xs) + Concat(ys)
  {
    if xs == [] {
      assert xs + ys == ys;
    } else {
      assert (xs + ys)[1..] == xs[1..] + ys;
      ConcatAppend(xs[1..], ys);
    }
  }

  predicate EndsWith(s: bytes, tail: bytes) {
    |tail| <= |s| && s[|s| - |tail|..] == tail
  }

  lemma EndsWithin(s: bytes, middle: bytes, tail: bytes)
    requires EndsWith(s, middle) && EndsWith(middle, tail)
    ensures EndsWith(s, tail)
  {
  }

  lemma EndIsEnd(front: bytes, tail: bytes)
    ensures EndsWith(front + tail, tail)
  {
  }

  lemma SplitEnd(s: bytes, tail: bytes)
    requires EndsWith(s, tail)
    ensures s[..|s| - |tail|] + tail == s
  {
  }
}
