/**
 * The cryptobyte layer under handshake_messages.go: big-endian integers, length-prefixed vectors,
 * and lists of items read until a string is empty.
 */
module Wire {
  import opened Bytes

  type u16 = n: nat | n < 0x1_0000
  type u32 = n: nat | n < 0x1_0000_0000

  function ReadUint(s: bytes, w: nat): Option<(nat, bytes)> {
    if |s| < w then None else Some((Uint(s[..w]), s[w..]))
  }

  lemma ReadsUint(n: nat, w: nat, rest: bytes)
    requires n < Pow256(w)
    ensures ReadUint(Be(n, w) + rest, w) == Some((n, rest))
  {
    var s := Be(n, w) + rest;
    assert s[..w] == Be(n, w) && s[w..] == rest;
    UintBe(n, w);
  }

  lemma UintRead(s: bytes, w: nat)
    requires |s| >= w
    ensures var (n, rest) := ReadUint(s, w).value; n < Pow256(w) && Be(n, w) + rest == s
  {
    UintBound(s[..w]);
    BeUint(s[..w]);
  }

  /** A vector after its length in w octets. */
  function Prefixed(b: bytes, w: nat): bytes {
    Be(|b|, w) + b
  }

  function ReadPrefixed(s: bytes, w: nat): (r: Option<(bytes, bytes)>)
    ensures r.Some? ==> |s| == w + |r.value.0| + |r.value.1|
  {
    match ReadUint(s, w)
    case None => None
    case Some((n, rest)) => if |rest| < n then None else Some((rest[..n], rest[n..]))
  }

  lemma ReadsPrefixed(b: bytes, w: nat, rest: bytes)
    requires |b| < Pow256(w)
    ensures ReadPrefixed(Prefixed(b, w) + rest, w) == Some((b, rest))
  {
    ReadsUint(|b|, w, b + rest);
    assert Prefixed(b, w) + rest == Be(|b|, w) + (b + rest);
    assert (b + rest)[..|b|] == b && (b + rest)[|b|..] == rest;
  }

  /** Skipping the type and the 24-bit length of a handshake message. */
  lemma SkipHeader(kind: byte, body: bytes)
    ensures var data := [kind] + Prefixed(body, 3); |data| >= 4 && data[4..] == body
  {
  }

  lemma PrefixedRead(s: bytes, w: nat)
    requires ReadPrefixed(s, w).Some?
    ensures var (b, rest) := ReadPrefixed(s, w).value; |b| < Pow256(w) && Prefixed(b, w) + rest == s
  {
    UintRead(s, w);
    var (n, tail) := ReadUint(s, w).value;
    assert tail == tail[..n] + tail[n..];
    assert Be(n, w) + tail == (Be(n, w) + tail[..n]) + tail[n..];
  }

  /** How one kind of list item is written and read. */
  datatype Format<!T> = Format(valid: T -> bool, write: T -> bytes, read: bytes -> Option<(T, bytes)>)

  ghost predicate ReadsBack<T(!new)>(f: Format<T>, x: T, rest: bytes) {
    f.valid(x) ==> |f.write(x)| > 0 && f.read(f.write(x) + rest) == Some((x, rest))
  }

  ghost predicate ReadsOnlyWritten<T(!new)>(f: Format<T>, s: bytes) {
    match f.read(s)
    case None => true
    case Some((x, rest)) => f.valid(x) && f.write(x) + rest == s
  }

  /** Reading accepts exactly what writing a valid item produces, and items take space. */
  ghost predicate Lawful<T(!new)>(f: Format<T>) {
    (forall x, rest :: ReadsBack(f, x, rest)) && forall s :: ReadsOnlyWritten(f, s)
  }

  type ItemFormat<!T(!new)> = f: Format<T> | Lawful(f) ghost witness Format(_ => false, _ => [], _ => None)

  /** A list of items written one after another. */
  function Written<T(!new)>(xs: seq<T>, f: ItemFormat<T>): bytes {
    if xs == [] then [] else f.write(xs[0]) + Written(xs[1..], f)
  }

  predicate AllValid<T(!new)>(xs: seq<T>, f: ItemFormat<T>) {
    forall i :: 0 <= i < |xs| ==> f.valid(xs[i])
  }

  lemma ItemShrinks<T(!new)>(s: bytes, f: ItemFormat<T>)
    requires f.read(s).Some?
    ensures f.valid(f.read(s).value.0) && f.write(f.read(s).value.0) + f.read(s).value.1 == s
    ensures |f.read(s).value.1| < |s|
  {
    assert ReadsOnlyWritten(f, s) && ReadsBack(f, f.read(s).value.0, f.read(s).value.1);
  }

  /** What reading items until the string is empty gives. */
  function Elements<T(!new)>(s: bytes, f: ItemFormat<T>): (r: Option<seq<T>>)
    decreases |s|
  {
    if s == [] then Some([])
    else
      match f.read(s)
      case None => None
      case Some((x, rest)) =>
        ItemShrinks(s, f);
        match Elements(rest, f)
        case None => None
        case Some(xs) => Some([x] + xs)
  }

  lemma {:induction false} ElementsOfWritten<T(!new)>(xs: seq<T>, f: ItemFormat<T>)
    requires AllValid(xs, f)
    ensures Elements(Written(xs, f), f) == Some(xs)
  {
    if xs != [] {
      assert f.valid(xs[0]);
      ElementsOfWritten(xs[1..], f);
      assert ReadsBack(f, xs[0], Written(xs[1..], f));
      var s := f.write(xs[0]) + Written(xs[1..], f);
      assert s != [] && f.read(s) == Some((xs[0], Written(xs[1..], f)));
      assert [xs[0]] + xs[1..] == xs;
    }
  }

  lemma {:induction false} WrittenElements<T(!new)>(s: bytes, f: ItemFormat<T>)
    requires Elements(s, f).Some?
    ensures AllValid(Elements(s, f).value, f) && Written(Elements(s, f).value, f) == s
    decreases |s|
  {
    if s != [] {
      ItemShrinks(s, f);
      var (x, rest) := f.read(s).value;
      WrittenElements(rest, f);
      assert Elements(s, f).value[1..] == Elements(rest, f).value;
    }
  }

  /** The parsing loop over a list. */
  method ReadElements<T(!new)>(s: bytes, f: ItemFormat<T>) returns (r: Option<seq<T>>)
    ensures r == Elements(s, f)
    ensures r.Some? <==> exists xs :: AllValid(xs, f) && Written(xs, f) == s
  {
    if Elements(s, f).Some? {
      WrittenElements(s, f);
    }
    forall xs | AllValid(xs, f) && Written(xs, f) == s
      ensures Elements(s, f) == Some(xs)
    {
      ElementsOfWritten(xs, f);
    }
    var left: bytes, done: seq<T> := s, [];
    assert Elements(s, f).Some? ==> [] + Elements(s, f).value == Elements(s, f).value;
    while left != []
      invariant Elements(s, f) == match Elements(left, f) case None => None case Some(xs) => Some(done + xs)
      decreases |left|
    {
      match f.read(left) {
        case None => return None;
        case Some((x, rest)) =>
          ItemShrinks(left, f);
          Prepended(left, f, done);
          left, done := rest, done + [x];
      }
    }
    assert done + [] == done;
    return Some(done);
  }

  lemma Prepended<T(!new)>(s: bytes, f: ItemFormat<T>, done: seq<T>)
    requires s != [] && f.read(s).Some?
    ensures var (x, rest) := f.read(s).value;
            match Elements(rest, f)
            case None => Elements(s, f) == None
            case Some(xs) => Elements(s, f).Some? && done + Elements(s, f).value == done + [x] + xs
  {
    ItemShrinks(s, f);
  }

  /** A whole extension body that is one length-prefixed list. */
  function DecodeList<T(!new)>(data: bytes, w: nat, f: ItemFormat<T>): Option<seq<T>> {
    match ReadPrefixed(data, w)
    case None => None
    case Some((list, rest)) => if rest != [] then None else Elements(list, f)
  }

  function EncodeList<T(!new)>(xs: seq<T>, w: nat, f: ItemFormat<T>): bytes {
    Prefixed(Written(xs, f), w)
  }

  predicate ListFits<T(!new)>(xs: seq<T>, w: nat, f: ItemFormat<T>) {
    AllValid(xs, f) && |Written(xs, f)| < Pow256(w)
  }

  /** Decoding accepts exactly the encodings. */
  lemma ListRoundTrip<T(!new)>(xs: seq<T>, w: nat, f: ItemFormat<T>)
    requires ListFits(xs, w, f)
    ensures DecodeList(EncodeList(xs, w, f), w, f) == Some(xs)
  {
    ReadsPrefixed(Written(xs, f), w, []);
    assert EncodeList(xs, w, f) + [] == EncodeList(xs, w, f);
    ElementsOfWritten(xs, f);
  }

  lemma ListDecoded<T(!new)>(data: bytes, w: nat, f: ItemFormat<T>)
    requires DecodeList(data, w, f).Some?
    ensures ListFits(DecodeList(data, w, f).value, w, f) && EncodeList(DecodeList(data, w, f).value, w, f) == data
  {
    PrefixedRead(data, w);
    WrittenElements(ReadPrefixed(data, w).value.0, f);
  }

  method ReadList<T(!new)>(data: bytes, w: nat, f: ItemFormat<T>) returns (r: Option<seq<T>>)
    ensures r == DecodeList(data, w, f)
  {
    match ReadPrefixed(data, w) {
      case None => return None;
      case Some((list, rest)) =>
        if rest != [] {
          return None;
        }
        r := ReadElements(list, f);
    }
  }

  function DecodeVector(data: bytes, w: nat): Option<bytes> {
    match ReadPrefixed(data, w)
    case None => None
    case Some((b, rest)) => if rest != [] then None else Some(b)
  }

  lemma VectorRoundTrip(b: bytes, w: nat)
    requires |b| < Pow256(w)
    ensures DecodeVector(Prefixed(b, w), w) == Some(b)
  {
    ReadsPrefixed(b, w, []);
    assert Prefixed(b, w) + [] == Prefixed(b, w);
  }

  function ReadU16(s: bytes): Option<(u16, bytes)> {
    match ReadUint(s, 2)
    case None => None
    case Some((n, rest)) => UintRead(s, 2); PowersOf256(); Some((n, rest))
  }

  function ReadU32(s: bytes): Option<(u32, bytes)> {
    match ReadUint(s, 4)
    case None => None
    case Some((n, rest)) => UintRead(s, 4); PowersOf256(); Some((n, rest))
  }

  lemma ReadsU16(n: u16, rest: bytes)
    ensures ReadU16(Be(n, 2) + rest) == Some((n, rest))
  {
    PowersOf256();
    ReadsUint(n, 2, rest);
  }

  /** Lists of 16-bit codes: cipher suites, groups, signature schemes, versions. */
  function Codes(): ItemFormat<u16> {
    CodesLawful();
    Format((_: u16) => true, (n: u16) => Be(n, 2), ReadU16)
  }

  lemma CodesLawful()
    ensures Lawful(Format((_: u16) => true, (n: u16) => Be(n, 2), ReadU16))
  {
    var f := Format((_: u16) => true, (n: u16) => Be(n, 2), ReadU16);
    forall x: u16, rest
      ensures ReadsBack(f, x, rest)
    {
      if f.valid(x) {
        ReadsU16(x, rest);
      }
    }
    forall s
      ensures ReadsOnlyWritten(f, s)
    {
      if f.read(s).Some? {
        UintRead(s, 2);
      }
    }
  }

  predicate NonEmptyFits(b: bytes, w: nat) {
    0 < |b| < Pow256(w)
  }

  function ReadNonEmpty(s: bytes, w: nat): Option<(bytes, bytes)> {
    match ReadPrefixed(s, w)
    case None => None
    case Some((b, rest)) => if b == [] then None else Some((b, rest))
  }

  /** Lists of non-empty vectors: protocol names, binders, timestamps. */
  function Vectors(w: nat): ItemFormat<bytes> {
    VectorsLawful(w);
    Format((b: bytes) => NonEmptyFits(b, w), (b: bytes) => Prefixed(b, w), (s: bytes) => ReadNonEmpty(s, w))
  }

  lemma VectorsLawful(w: nat)
    ensures Lawful(Format((b: bytes) => NonEmptyFits(b, w), (b: bytes) => Prefixed(b, w), (s: bytes) => ReadNonEmpty(s, w)))
  {
    var f := Format((b: bytes) => NonEmptyFits(b, w), (b: bytes) => Prefixed(b, w), (s: bytes) => ReadNonEmpty(s, w));
    forall x: bytes, rest
      ensures ReadsBack(f, x, rest)
    {
      if f.valid(x) {
        ReadsPrefixed(x, w, rest);
      }
    }
    forall s
      ensures ReadsOnlyWritten(f, s)
    {
      if f.read(s).Some? {
        PrefixedRead(s, w);
      }
    }
  }

  /** An extension before its body is looked at. */
  datatype RawExtension = RawExtension(code: u16, body: bytes)

  predicate RawValid(x: RawExtension) {
    |x.body| < Pow256(2)
  }

  function WriteRaw(x: RawExtension): bytes {
    Be(x.code, 2) + Prefixed(x.body, 2)
  }

  function ReadRaw(s: bytes): (r: Option<(RawExtension, bytes)>)
    ensures r.Some? ==> |r.value.1| < |s|
  {
    match ReadU16(s)
    case None => None
    case Some((code, tail)) =>
      match ReadPrefixed(tail, 2)
      case None => None
      case Some((body, rest)) => Some((RawExtension(code, body), rest))
  }

  lemma ReadsRaw(x: RawExtension, rest: bytes)
    requires RawValid(x)
    ensures ReadRaw(WriteRaw(x) + rest) == Some((x, rest))
  {
    ReadsU16(x.code, Prefixed(x.body, 2) + rest);
    ReadsPrefixed(x.body, 2, rest);
    assert WriteRaw(x) + rest == Be(x.code, 2) + (Prefixed(x.body, 2) + rest);
  }

  lemma RawRead(s: bytes)
    requires ReadRaw(s).Some?
    ensures var (x, rest) := ReadRaw(s).value; RawValid(x) && WriteRaw(x) + rest == s
  {
    UintRead(s, 2);
    PrefixedRead(ReadU16(s).value.1, 2);
    var (x, rest) := ReadRaw(s).value;
    assert WriteRaw(x) + rest == Be(x.code, 2) + (Prefixed(x.body, 2) + rest);
  }

  /** An extension block. */
  function RawExtensions(): ItemFormat<RawExtension> {
    RawExtensionsLawful();
    Format(RawValid, WriteRaw, ReadRaw)
  }

  lemma RawExtensionsLawful()
    ensures Lawful(Format(RawValid, WriteRaw, ReadRaw))
  {
    var f := Format(RawValid, WriteRaw, ReadRaw);
    forall x: RawExtension, rest
      ensures ReadsBack(f, x, rest)
    {
      if f.valid(x) {
        ReadsRaw(x, rest);
        assert |WriteRaw(x)| > 0;
      }
    }
    forall s
      ensures ReadsOnlyWritten(f, s)
    {
      if f.read(s).Some? {
        RawRead(s);
      }
    }
  }
}
