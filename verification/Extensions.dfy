/**
 * The extension block ClientHello and ServerHello share: optional extensions written in a fixed
 * order, and the loop that reads them back into message fields.
 */
module Extensions {
  import opened Bytes
  import opened Wire

  /** How a message type M treats extensions E: `raw` is their framing, `final` says which codes must come last. */
  datatype Schema<!M, !E> = Schema(
    raw: ItemFormat<RawExtension>,
    code: E -> u16,
    body: E -> bytes,
    decode: (u16, bytes) -> Option<E>,
    assign: (M, E) -> M,
    final: u16 -> bool)

  function EncodeExtension<M, E>(schema: Schema<M, E>, e: E): bytes {
    schema.raw.write(RawExtension(schema.code(e), schema.body(e)))
  }

  function EncodeField<M, E>(schema: Schema<M, E>, f: Option<E>): bytes {
    match f
    case None => []
    case Some(e) => EncodeExtension(schema, e)
  }

  /** The optional extensions of a message, by position. */
  type Fields<!E> = nat -> Option<E>

  /** The present extensions from position k up to n. */
  function ExtensionBytes<M, E>(schema: Schema<M, E>, fields: Fields<E>, k: nat, n: nat): bytes
    decreases n - k
  {
    if k >= n then [] else EncodeField(schema, fields(k)) + ExtensionBytes(schema, fields, k + 1, n)
  }

  function ExtensionBlock(extensions: bytes): bytes {
    if extensions == [] then [] else Prefixed(extensions, 2)
  }

  /** The extension loop of unmarshal. */
  function ParseExtensions<M, E>(schema: Schema<M, E>, s: bytes, seen: set<u16>, m: M): Option<M>
    decreases |s|
  {
    if s == [] then Some(m)
    else
      match schema.raw.read(s)
      case None => None
      case Some((x, rest)) =>
        ItemShrinks(s, schema.raw);
        if x.code in seen || (schema.final(x.code) && rest != []) then None
        else
          match schema.decode(x.code, x.body)
          case None => None
          case Some(e) => ParseExtensions(schema, rest, seen + {x.code}, schema.assign(m, e))
  }

  function ParseBlock<M, E>(schema: Schema<M, E>, m: M, s: bytes): Option<M> {
    if s == [] then Some(m)
    else
      match DecodeVector(s, 2)
      case None => None
      case Some(extensions) => ParseExtensions(schema, extensions, {}, m)
  }

  /** Reading the body of e gives e back. */
  predicate RoundTrips<M, E(==)>(schema: Schema<M, E>, e: E) {
    schema.raw.valid(RawExtension(schema.code(e), schema.body(e))) && schema.decode(schema.code(e), schema.body(e)) == Some(e)
  }

  /** The k-th of n fields can be read back, and reading it takes the message from upto(k) to upto(k + 1). */
  ghost predicate Regular<M, E>(schema: Schema<M, E>, fields: Fields<E>, upto: nat -> M, k: nat, n: nat) {
    match fields(k)
    case None => upto(k + 1) == upto(k)
    case Some(e) =>
      && RoundTrips(schema, e) && (schema.final(schema.code(e)) ==> k == n - 1)
      && upto(k + 1) == schema.assign(upto(k), e)
  }

  predicate Apart<M, E>(schema: Schema<M, E>, f: Option<E>, g: Option<E>) {
    f.Some? && g.Some? ==> schema.code(f.value) != schema.code(g.value)
  }

  ghost predicate Distinct<M, E>(schema: Schema<M, E>, fields: Fields<E>, n: nat) {
    forall i, j :: 0 <= i < j < n ==> Apart(schema, fields(i), fields(j))
  }

  /** The codes read before position k. */
  ghost function SeenAt<M, E>(schema: Schema<M, E>, fields: Fields<E>, k: nat): set<u16> {
    set i | 0 <= i < k && fields(i).Some? :: schema.code(fields(i).value)
  }

  lemma SeenGrows<M, E>(schema: Schema<M, E>, fields: Fields<E>, k: nat, n: nat)
    requires k < n && Distinct(schema, fields, n)
    ensures fields(k).None? ==> SeenAt(schema, fields, k + 1) == SeenAt(schema, fields, k)
    ensures fields(k).Some? ==>
              var code := schema.code(fields(k).value);
              code !in SeenAt(schema, fields, k) && SeenAt(schema, fields, k + 1) == SeenAt(schema, fields, k) + {code}
  {
  }

  lemma ParseOne<M, E>(schema: Schema<M, E>, e: E, rest: bytes, seen: set<u16>, m: M)
    requires RoundTrips(schema, e) && schema.code(e) !in seen && (schema.final(schema.code(e)) ==> rest == [])
    ensures ParseExtensions(schema, EncodeExtension(schema, e) + rest, seen, m)
         == ParseExtensions(schema, rest, seen + {schema.code(e)}, schema.assign(m, e))
  {
    assert ReadsBack(schema.raw, RawExtension(schema.code(e), schema.body(e)), rest);
  }

  /** What is left to do at position k: its result does not change while fields are read. */
  ghost function ResultFrom<M, E>(schema: Schema<M, E>, fields: Fields<E>, upto: nat -> M, n: nat, k: nat): Option<M> {
    ParseExtensions(schema, ExtensionBytes(schema, fields, k, n), SeenAt(schema, fields, k), upto(k))
  }

  lemma ParsesField<M, E>(schema: Schema<M, E>, fields: Fields<E>, upto: nat -> M, n: nat, k: nat)
    requires k < n && Distinct(schema, fields, n) && Regular(schema, fields, upto, k, n)
    ensures ResultFrom(schema, fields, upto, n, k) == ResultFrom(schema, fields, upto, n, k + 1)
  {
    SeenGrows(schema, fields, k, n);
    var rest := ExtensionBytes(schema, fields, k + 1, n);
    if fields(k).None? {
      NothingAdded(rest);
    } else {
      FieldStep(schema, fields(k).value, rest, SeenAt(schema, fields, k), upto(k), k == n - 1);
    }
  }

  lemma NothingAdded(rest: bytes)
    ensures [] + rest == rest
  {
  }

  lemma FieldStep<M, E>(schema: Schema<M, E>, e: E, rest: bytes, seen: set<u16>, m: M, last: bool)
    requires RoundTrips(schema, e) && schema.code(e) !in seen && (schema.final(schema.code(e)) ==> last) && (last ==> rest == [])
    ensures ParseExtensions(schema, EncodeField(schema, Some(e)) + rest, seen, m)
         == ParseExtensions(schema, rest, seen + {schema.code(e)}, schema.assign(m, e))
  {
    ParseOne(schema, e, rest, seen, m);
  }

  lemma {:induction false} Constant<T>(r: nat -> T, n: nat)
    requires forall k :: 0 <= k < n ==> r(k) == r(k + 1)
    ensures r(0) == r(n)
  {
    if n > 0 {
      Constant(r, n - 1);
      assert r(n - 1) == r(n - 1 + 1);
    }
  }

  /** Reading all the fields completes the message. */
  lemma ParsesAll<M, E>(schema: Schema<M, E>, fields: Fields<E>, upto: nat -> M, n: nat)
    requires Distinct(schema, fields, n) && forall k :: 0 <= k < n ==> Regular(schema, fields, upto, k, n)
    ensures ParseExtensions(schema, ExtensionBytes(schema, fields, 0, n), {}, upto(0)) == Some(upto(n))
  {
    var r := (k: nat) => ResultFrom(schema, fields, upto, n, k);
    forall k | 0 <= k < n
      ensures r(k) == r(k + 1)
    {
      ParsesField(schema, fields, upto, n, k);
    }
    Constant(r, n);
    assert SeenAt(schema, fields, 0) == {};
    assert r(n) == Some(upto(n));
  }

  /** The whole block: what is written for upto(n) is read back starting from upto(0). */
  lemma BlockRoundTrip<M, E>(schema: Schema<M, E>, fields: Fields<E>, upto: nat -> M, n: nat)
    requires Distinct(schema, fields, n) && |ExtensionBytes(schema, fields, 0, n)| < 0x1_0000
    requires forall k :: 0 <= k < n ==> Regular(schema, fields, upto, k, n)
    ensures ParseBlock(schema, upto(0), ExtensionBlock(ExtensionBytes(schema, fields, 0, n))) == Some(upto(n))
  {
    PowersOf256();
    VectorRoundTrip(ExtensionBytes(schema, fields, 0, n), 2);
    ParsesAll(schema, fields, upto, n);
  }

  ghost predicate KeptBy<M(!new), E(!new)>(schema: Schema<M, E>, inv: (set<u16>, M) -> bool, seen: set<u16>, m: M, code: u16, body: bytes) {
    inv(seen, m) && code !in seen && schema.decode(code, body).Some?
    ==> inv(seen + {code}, schema.assign(m, schema.decode(code, body).value))
  }

  /** What every decoded extension keeps, the loop keeps. */
  lemma {:induction false} ParsedKeeps<M(!new), E(!new)>(schema: Schema<M, E>, inv: (set<u16>, M) -> bool, s: bytes, seen: set<u16>, m: M)
    returns (seen1: set<u16>)
    requires inv(seen, m) && ParseExtensions(schema, s, seen, m).Some?
    requires forall seen, m, code, body :: KeptBy(schema, inv, seen, m, code, body)
    ensures inv(seen1, ParseExtensions(schema, s, seen, m).value)
    decreases |s|
  {
    if s == [] {
      return seen;
    }
    var (x, rest) := schema.raw.read(s).value;
    ItemShrinks(s, schema.raw);
    assert KeptBy(schema, inv, seen, m, x.code, x.body);
    seen1 := ParsedKeeps(schema, inv, rest, seen + {x.code}, schema.assign(m, schema.decode(x.code, x.body).value));
  }

  /** No extension appears twice, and those that must be last are. */
  predicate WellPlaced(xs: seq<RawExtension>, final: u16 -> bool) {
    && (forall i, j :: 0 <= i < j < |xs| ==> xs[i].code != xs[j].code)
    && forall i :: 0 <= i < |xs| - 1 ==> !final(xs[i].code)
  }

  predicate Decodes<M, E>(schema: Schema<M, E>, x: RawExtension) {
    schema.decode(x.code, x.body).Some?
  }

  predicate AllDecode<M, E>(schema: Schema<M, E>, xs: seq<RawExtension>) {
    forall i :: 0 <= i < |xs| ==> Decodes(schema, xs[i])
  }

  predicate NoneIn(xs: seq<RawExtension>, seen: set<u16>) {
    forall i :: 0 <= i < |xs| ==> xs[i].code !in seen
  }

  /**
   * Which extension blocks are accepted, whatever wrote them: well framed, every body well formed,
   * no repetition, nothing after a final extension.
   */
  lemma {:induction false} AcceptedExactly<M, E>(schema: Schema<M, E>, s: bytes, seen: set<u16>, m: M)
    ensures ParseExtensions(schema, s, seen, m).Some? <==>
            Elements(s, schema.raw).Some? &&
            var xs := Elements(s, schema.raw).value; WellPlaced(xs, schema.final) && AllDecode(schema, xs) && NoneIn(xs, seen)
    decreases |s|
  {
    if s != [] && schema.raw.read(s).Some? {
      var (x, rest) := schema.raw.read(s).value;
      ItemShrinks(s, schema.raw);
      if x.code !in seen && (schema.final(x.code) ==> rest == []) && Decodes(schema, x) {
        AcceptedExactly(schema, rest, seen + {x.code}, schema.assign(m, schema.decode(x.code, x.body).value));
      }
      if Elements(rest, schema.raw).Some? {
        var xs := Elements(rest, schema.raw).value;
        Placed(schema, x, xs, seen);
        assert rest == [] <==> xs == [];
      }
    }
  }

  lemma Placed<M, E>(schema: Schema<M, E>, x: RawExtension, xs: seq<RawExtension>, seen: set<u16>)
    ensures NoneIn([x] + xs, seen) <==> x.code !in seen && NoneIn(xs, seen)
    ensures AllDecode(schema, [x] + xs) <==> Decodes(schema, x) && AllDecode(schema, xs)
    ensures WellPlaced([x] + xs, schema.final) <==> WellPlaced(xs, schema.final) && NoneIn(xs, {x.code}) && (schema.final(x.code) ==> xs == [])
    ensures NoneIn(xs, seen + {x.code}) <==> NoneIn(xs, seen) && NoneIn(xs, {x.code})
  {
    ConsNoneIn(x, xs, seen);
    ConsAllDecode(schema, x, xs);
    ConsWellPlaced(x, xs, schema.final);
  }

  lemma Cons<T>(x: T, xs: seq<T>)
    ensures ([x] + xs)[0] == x && forall i :: 0 < i < |xs| + 1 ==> ([x] + xs)[i] == xs[i - 1]
    ensures forall i :: 0 <= i < |xs| ==> xs[i] == ([x] + xs)[i + 1]
  {
  }

  lemma ConsNoneIn(x: RawExtension, xs: seq<RawExtension>, seen: set<u16>)
    ensures NoneIn([x] + xs, seen) <==> x.code !in seen && NoneIn(xs, seen)
  {
    Cons(x, xs);
  }

  lemma ConsAllDecode<M, E>(schema: Schema<M, E>, x: RawExtension, xs: seq<RawExtension>)
    ensures AllDecode(schema, [x] + xs) <==> Decodes(schema, x) && AllDecode(schema, xs)
  {
    Cons(x, xs);
  }

  lemma ConsWellPlaced(x: RawExtension, xs: seq<RawExtension>, final: u16 -> bool)
    ensures WellPlaced([x] + xs, final) <==> WellPlaced(xs, final) && NoneIn(xs, {x.code}) && (final(x.code) ==> xs == [])
  {
    Cons(x, xs);
  }

  lemma {:induction false} SameFieldsSameBytes<M, E>(schema: Schema<M, E>, f: Fields<E>, g: Fields<E>, k: nat, n: nat)
    requires forall j :: k <= j < n ==> f(j) == g(j)
    ensures ExtensionBytes(schema, f, k, n) == ExtensionBytes(schema, g, k, n)
    decreases n - k
  {
    if k < n {
      SameFieldsSameBytes(schema, f, g, k + 1, n);
    }
  }

  /** Blocks whose fields agree but for the last one share everything in front of it. */
  lemma {:induction false} AgreeBeforeLast<M, E>(schema: Schema<M, E>, f: Fields<E>, g: Fields<E>, k: nat, n: nat) returns (common: bytes)
    requires k < n && forall j :: k <= j < n - 1 ==> f(j) == g(j)
    ensures ExtensionBytes(schema, f, k, n) == common + EncodeField(schema, f(n - 1))
    ensures ExtensionBytes(schema, g, k, n) == common + EncodeField(schema, g(n - 1))
    decreases n - k
  {
    if k == n - 1 {
      common := [];
      NothingAfter(EncodeField(schema, f(k)));
      NothingAfter(EncodeField(schema, g(k)));
    } else {
      var rest := AgreeBeforeLast(schema, f, g, k + 1, n);
      common := EncodeField(schema, f(k)) + rest;
      Regrouped(EncodeField(schema, f(k)), rest, EncodeField(schema, f(n - 1)));
      Regrouped(EncodeField(schema, g(k)), rest, EncodeField(schema, g(n - 1)));
    }
  }

  lemma NothingAfter(b: bytes)
    ensures b + [] == b == [] + b
  {
  }

  lemma Regrouped(a: bytes, b: bytes, c: bytes)
    ensures a + (b + c) == (a + b) + c
  {
  }

  ghost predicate OnlyFinalTouches<M(!new), E(!new)>(schema: Schema<M, E>, touched: M -> bool, m: M, code: u16, body: bytes) {
    !touched(m) && !schema.final(code) && schema.decode(code, body).Some? ==> !touched(schema.assign(m, schema.decode(code, body).value))
  }

  /** An accepted block ends with its final extension, which was the last one assigned. */
  lemma {:induction false} FinalIsEnd<M(!new), E(!new)>(schema: Schema<M, E>, touched: M -> bool, s: bytes, seen: set<u16>, m: M)
    returns (m1: M, x: RawExtension)
    requires !touched(m) && ParseExtensions(schema, s, seen, m).Some? && touched(ParseExtensions(schema, s, seen, m).value)
    requires forall m, code, body :: OnlyFinalTouches(schema, touched, m, code, body)
    ensures EndsWith(s, schema.raw.write(x)) && schema.final(x.code) && Decodes(schema, x)
    ensures ParseExtensions(schema, s, seen, m).value == schema.assign(m1, schema.decode(x.code, x.body).value)
    decreases |s|
  {
    x := schema.raw.read(s).value.0;
    var rest := schema.raw.read(s).value.1;
    ItemShrinks(s, schema.raw);
    assert OnlyFinalTouches(schema, touched, m, x.code, x.body);
    m1 := m;
    if schema.final(x.code) {
      NothingAfter(schema.raw.write(x));
    } else {
      EndIsEnd(schema.raw.write(x), rest);
      m1, x := FinalIsEnd(schema, touched, rest, seen + {x.code}, schema.assign(m, schema.decode(x.code, x.body).value));
      EndsWithin(s, rest, schema.raw.write(x));
    }
  }

  predicate FieldShort<M, E>(schema: Schema<M, E>, f: Option<E>, bound: nat) {
    |EncodeField(schema, f)| <= bound
  }

  /** A block of short extensions is short. */
  lemma {:induction false} BlockBound<M, E>(schema: Schema<M, E>, fields: Fields<E>, k: nat, n: nat, bound: nat)
    requires k <= n && forall j :: k <= j < n ==> FieldShort(schema, fields(j), bound)
    ensures |ExtensionBytes(schema, fields, k, n)| <= (n - k) * bound
    decreases n - k
  {
    if k < n {
      BlockBound(schema, fields, k + 1, n, bound);
      assert FieldShort(schema, fields(k), bound);
      OneMore(n - k, bound);
    }
  }

  lemma OneMore(m: nat, b: nat)
    requires m > 0
    ensures m * b == b + (m - 1) * b
  {
  }
}
