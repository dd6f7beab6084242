/**
 * common.go, cipher_suites.go and handshake_server.go: whether a certificate is usable for a client, and
 * which TLS 1.0 to 1.2 cipher suite the server then picks.
 */
module SuiteSelection {
  import opened Bytes
  import opened KeyBlock

  const TLS_FALLBACK_SCSV := 0x5600

  const PREFERENCE_ORDER: seq<nat> := [
    0xc02b, 0xc02f, 0xc02c, 0xc030, 0xcca9, 0xcca8, 0xc009, 0xc013, 0xc00a, 0xc014, 0x009c, 0x009d, 0x002f, 0x0035,
    0xc012, 0x000a, 0xc023, 0xc027, 0x003c, 0xc007, 0xc011, 0x0005]

  const PREFERENCE_ORDER_NO_AES: seq<nat> := [
    0xcca9, 0xcca8, 0xc02b, 0xc02f, 0xc02c, 0xc030, 0xc009, 0xc013, 0xc00a, 0xc014, 0x009c, 0x009d, 0x002f, 0x0035,
    0xc012, 0x000a, 0xc023, 0xc027, 0x003c, 0xc007, 0xc011, 0x0005]

  function FindSuite(table: seq<CipherSuite>, id: nat): (r: Option<CipherSuite>)
    ensures r.Some? ==> r.value.id == id && r.value in table
    ensures r.None? ==> forall i :: 0 <= i < |table| ==> table[i].id != id
  {
    if table == [] then None else if table[0].id == id then Some(table[0]) else FindSuite(table[1..], id)
  }

  /** cipherSuiteByID. */
  function SuiteById(id: nat): Option<CipherSuite> {
    FindSuite(CIPHER_SUITES, id)
  }

  predicate Listed(t: nat -> Option<CipherSuite>, id: nat) {
    t(id).Some? ==> t(id).value.id == id && id in PREFERENCE_ORDER && id in PREFERENCE_ORDER_NO_AES
  }

  /** A lookup by identifier whose suites both preference orders list. */
  type Table = t: nat -> Option<CipherSuite> | forall id :: Listed(t, id)
    ghost witness (_: nat) => None

  type Filter = CipherSuite -> bool

  /** Whether selectCipherSuite would take id. */
  predicate Eligible(t: Table, id: nat, supported: seq<nat>, ok: Filter) {
    t(id).Some? && ok(t(id).value) && id in supported
  }

  /** selectCipherSuite. */
  function Select(t: Table, ids: seq<nat>, supported: seq<nat>, ok: Filter): Option<CipherSuite> {
    if ids == [] then None
    else if Eligible(t, ids[0], supported, ok) then t(ids[0])
    else Select(t, ids[1..], supported, ok)
  }

  /** The selected suite is the first eligible one; there is none only if none is eligible. */
  lemma {:induction false} SelectsFirst(t: Table, ids: seq<nat>, supported: seq<nat>, ok: Filter)
    ensures match Select(t, ids, supported, ok)
            case None => forall i :: 0 <= i < |ids| ==> !Eligible(t, ids[i], supported, ok)
            case Some(s) =>
              exists i :: 0 <= i < |ids| && ids[i] == s.id && t(s.id) == Some(s) && Eligible(t, ids[i], supported, ok)
                          && forall j :: 0 <= j < i ==> !Eligible(t, ids[j], supported, ok)
  {
    if ids != [] && !Eligible(t, ids[0], supported, ok) {
      SelectsFirst(t, ids[1..], supported, ok);
      if Select(t, ids, supported, ok).Some? {
        var s := Select(t, ids, supported, ok).value;
        var i :| 0 <= i < |ids| - 1 && ids[1..][i] == s.id && Eligible(t, ids[1..][i], supported, ok)
                 && forall j :: 0 <= j < i ==> !Eligible(t, ids[1..][j], supported, ok);
        assert ids[i + 1] == s.id;
        assert forall j :: 0 < j < i + 1 ==> ids[j] == ids[1..][j - 1];
      }
    } else if ids != [] {
      assert Listed(t, ids[0]);
    }
  }

  /** The double loop of selectCipherSuite. */
  method SelectCipherSuite(t: Table, ids: seq<nat>, supported: seq<nat>, ok: Filter) returns (r: Option<CipherSuite>)
    ensures r == Select(t, ids, supported, ok)
  {
    for i := 0 to |ids|
      invariant Select(t, ids[i..], supported, ok) == Select(t, ids, supported, ok)
    {
      assert ids[i..][1..] == ids[i + 1..];
      var candidate := t(ids[i]);
      if candidate.None? || !ok(candidate.value) {
        continue;
      }
      for j := 0 to |supported|
        invariant ids[i] !in supported[..j]
      {
        if ids[i] == supported[j] {
          return candidate;
        }
      }
      assert supported[..|supported|] == supported;
    }
    return None;
  }

  datatype KeyKind = EcdsaKey(curve: Option<nat>) | Ed25519Key | RsaKey | OtherKey

  /**
   * A certificate's private key: the kind of its public key, and whether it implements crypto.Signer and
   * crypto.Decrypter. Both interfaces share one Public method, so there is one kind.
   */
  datatype Certificate = Certificate(kind: KeyKind, signs: bool, decrypts: bool)

  /** The parts of a ClientHello and a Config that matter; `nameOk` and `schemeOk` are the X.509 and signature scheme checks. */
  datatype Request = Request(suites: seq<nat>, curves: seq<nat>, points: seq<byte>, schemes: seq<nat>, vers: nat, nameOk: bool, schemeOk: bool)
  datatype Config = Config(suites: seq<nat>, curves: seq<nat>, maxVersion: nat)

  predicate SupportsEcdhe(config: Config, request: Request) {
    (exists c :: c in request.curves && c in config.curves) && (request.points == [] || 0 in request.points)
  }

  predicate VersionOk(vers: nat, s: CipherSuite) {
    s.flags.tls12 ==> vers >= VERSION_TLS12
  }

  /** A static RSA suite. */
  function RsaFilter(vers: nat): Filter {
    (s: CipherSuite) => !s.flags.ecdhe && VersionOk(vers, s)
  }

  function EcdheFilter(vers: nat, ecdsa: bool): Filter {
    (s: CipherSuite) => s.flags.ecdhe && s.flags.ecSign == ecdsa && VersionOk(vers, s)
  }

  predicate RsaFallback(t: Table, config: Config, request: Request, cert: Certificate, vers: nat) {
    cert.decrypts && cert.kind == RsaKey && Select(t, request.suites, config.suites, RsaFilter(vers)).Some?
  }

  /** The key of the certificate signs for ECDHE, in an ECDSA suite or an RSA one; None if it cannot. */
  datatype Signing = Ecdsa | Rsa | Fallback | Never

  function SigningOf(config: Config, request: Request, cert: Certificate, vers: nat): Signing {
    if !cert.signs then Fallback
    else
      match cert.kind
      case EcdsaKey(None) => Fallback
      case EcdsaKey(Some(curve)) => if curve in request.curves && curve in config.curves then Ecdsa else Never
      case Ed25519Key => if vers < VERSION_TLS12 || request.schemes == [] then Never else Ecdsa
      case RsaKey => Rsa
      case OtherKey => Fallback
  }

  /** ClientHelloInfo.SupportsCertificate before TLS 1.3. */
  predicate SupportsCertificate(t: Table, config: Config, request: Request, cert: Certificate, vers: nat) {
    request.nameOk &&
    if request.schemes != [] && !request.schemeOk then RsaFallback(t, config, request, cert, vers)
    else if !SupportsEcdhe(config, request) then RsaFallback(t, config, request, cert, vers)
    else
      match SigningOf(config, request, cert, vers)
      case Never => false
      case Fallback => RsaFallback(t, config, request, cert, vers)
      case Ecdsa => Select(t, request.suites, config.suites, EcdheFilter(vers, true)).Some? || RsaFallback(t, config, request, cert, vers)
      case Rsa => Select(t, request.suites, config.suites, EcdheFilter(vers, false)).Some? || RsaFallback(t, config, request, cert, vers)
  }

  /** What processClientHello finds out about the key; None is its internal error. */
  datatype Abilities = Abilities(ecdheOk: bool, ecSignOk: bool, rsaSignOk: bool, rsaDecryptOk: bool)

  function AbilitiesOf(config: Config, request: Request, cert: Certificate): Option<Abilities> {
    if (cert.signs && cert.kind == OtherKey) || (cert.decrypts && cert.kind != RsaKey) then None
    else
      Some(Abilities(SupportsEcdhe(config, request), cert.signs && (cert.kind.EcdsaKey? || cert.kind.Ed25519Key?),
                     cert.signs && cert.kind == RsaKey, cert.decrypts && cert.kind == RsaKey))
  }

  /** cipherSuiteOk. */
  predicate CipherSuiteOk(a: Abilities, vers: nat, s: CipherSuite) {
    && (if s.flags.ecdhe then a.ecdheOk && (if s.flags.ecSign then a.ecSignOk else a.rsaSignOk) else a.rsaDecryptOk)
    && VersionOk(vers, s)
  }

  function OkFilter(a: Abilities, vers: nat): Filter {
    (s: CipherSuite) => CipherSuiteOk(a, vers, s)
  }

  predicate IsAesGcm(id: nat) {
    id == 0xc02f || id == 0xc030 || id == 0xc02b || id == 0xc02c || id == 0x1301 || id == 0x1302
  }

  predicate KnownSuite(t: Table, id: nat) {
    t(id).Some? || id == 0x1301 || id == 0x1302 || id == 0x1303
  }

  /** aesgcmPreferred: what the first known suite of the client says about its hardware. */
  predicate AesGcmPreferred(t: Table, suites: seq<nat>) {
    suites != [] && if KnownSuite(t, suites[0]) then IsAesGcm(suites[0]) else AesGcmPreferred(t, suites[1..])
  }

  function PreferenceOrder(t: Table, hardware: bool, suites: seq<nat>): seq<nat> {
    if hardware && AesGcmPreferred(t, suites) then PREFERENCE_ORDER else PREFERENCE_ORDER_NO_AES
  }

  /** The preference order cut down to the configured suites. */
  function Configured(order: seq<nat>, suites: seq<nat>): (r: seq<nat>)
    ensures forall id :: id in r <==> id in order && id in suites
  {
    if order == [] then [] else (if order[0] in suites then [order[0]] else []) + Configured(order[1..], suites)
  }

  datatype Picked = Picked(suite: CipherSuite) | InternalError | NoSuite | InappropriateFallback

  predicate FallsBack(config: Config, request: Request) {
    TLS_FALLBACK_SCSV in request.suites && request.vers < config.maxVersion
  }

  /** processClientHello and pickCipherSuite as far as the suite goes. */
  function Pick(t: Table, config: Config, request: Request, cert: Certificate, vers: nat, hardware: bool): Picked {
    match AbilitiesOf(config, request, cert)
    case None => InternalError
    case Some(a) =>
      match Select(t, Configured(PreferenceOrder(t, hardware, request.suites), config.suites), request.suites, OkFilter(a, vers))
      case None => NoSuite
      case Some(s) => if FallsBack(config, request) then InappropriateFallback else Picked(s)
  }

  method Contains(list: seq<nat>, x: nat) returns (found: bool)
    ensures found == (x in list)
  {
    for j := 0 to |list|
      invariant x !in list[..j]
    {
      if list[j] == x {
        return true;
      }
    }
    assert list[..|list|] == list;
    return false;
  }

  lemma ConfiguredFrom(order: seq<nat>, suites: seq<nat>, i: nat)
    requires i < |order|
    ensures Configured(order[i..], suites) == (if order[i] in suites then [order[i]] else []) + Configured(order[i + 1..], suites)
  {
    assert order[i..][1..] == order[i + 1..];
  }

  lemma ListedSoFar(list: seq<nat>, x: nat, keep: bool, rest: seq<nat>)
    ensures list + ((if keep then [x] else []) + rest) == (if keep then list + [x] else list) + rest
  {
  }

  /** The loop that builds the server's preference list. */
  method PreferenceList(order: seq<nat>, suites: seq<nat>) returns (list: seq<nat>)
    ensures list == Configured(order, suites)
  {
    list := [];
    assert order[0..] == order;
    for i := 0 to |order|
      invariant list + Configured(order[i..], suites) == Configured(order, suites)
    {
      var found := Contains(suites, order[i]);
      ConfiguredFrom(order, suites, i);
      ListedSoFar(list, order[i], found, Configured(order[i + 1..], suites));
      if found {
        list := list + [order[i]];
      }
    }
    assert order[|order|..] == [];
  }

  method PickCipherSuite(t: Table, config: Config, request: Request, cert: Certificate, vers: nat, hardware: bool) returns (r: Picked)
    ensures r == Pick(t, config, request, cert, vers, hardware)
  {
    var a := AbilitiesOf(config, request, cert);
    if a.None? {
      return InternalError;
    }
    var list := PreferenceList(PreferenceOrder(t, hardware, request.suites), config.suites);
    var suite := SelectCipherSuite(t, list, request.suites, OkFilter(a.value, vers));
    if suite.None? {
      return NoSuite;
    }
    for i := 0 to |request.suites|
      invariant TLS_FALLBACK_SCSV !in request.suites[..i]
    {
      if request.suites[i] == TLS_FALLBACK_SCSV {
        if request.vers < config.maxVersion {
          return InappropriateFallback;
        }
        return Picked(suite.value);
      }
    }
    assert request.suites[..|request.suites|] == request.suites;
    return Picked(suite.value);
  }

  /** Where each suite of the table stands in the two orders. */
  const PLACES: seq<nat> := [5, 4, 1, 0, 3, 2, 17, 7, 16, 6, 9, 8, 10, 11, 18, 12, 13, 14, 15, 21, 20, 19]
  const PLACES_NO_AES: seq<nat> := [1, 0, 3, 2, 5, 4, 17, 7, 16, 6, 9, 8, 10, 11, 18, 12, 13, 14, 15, 21, 20, 19]

  /** Both preference orders list every suite of the table. */
  lemma OrdersAreComplete(i: nat)
    requires i < |CIPHER_SUITES|
    ensures CIPHER_SUITES[i].id in PREFERENCE_ORDER && CIPHER_SUITES[i].id in PREFERENCE_ORDER_NO_AES
  {
    assert PREFERENCE_ORDER[PLACES[i]] == CIPHER_SUITES[i].id;
    assert PREFERENCE_ORDER_NO_AES[PLACES_NO_AES[i]] == CIPHER_SUITES[i].id;
  }

  /** A suite the server may pick: configured, offered, and fit for key and version. */
  predicate Allowed(t: Table, config: Config, request: Request, a: Abilities, vers: nat, id: nat) {
    id in config.suites && Eligible(t, id, request.suites, OkFilter(a, vers))
  }

  /** A suite one of the filters of SupportsCertificate takes is allowed. */
  lemma SupportedIsAllowed(t: Table, config: Config, request: Request, cert: Certificate, vers: nat, a: Abilities) returns (id: nat)
    requires SupportsCertificate(t, config, request, cert, vers) && AbilitiesOf(config, request, cert) == Some(a)
    ensures Allowed(t, config, request, a, vers, id)
  {
    SelectsFirst(t, request.suites, config.suites, RsaFilter(vers));
    SelectsFirst(t, request.suites, config.suites, EcdheFilter(vers, true));
    SelectsFirst(t, request.suites, config.suites, EcdheFilter(vers, false));
    if RsaFallback(t, config, request, cert, vers) {
      id := Select(t, request.suites, config.suites, RsaFilter(vers)).value.id;
    } else if SigningOf(config, request, cert, vers) == Ecdsa {
      id := Select(t, request.suites, config.suites, EcdheFilter(vers, true)).value.id;
    } else {
      id := Select(t, request.suites, config.suites, EcdheFilter(vers, false)).value.id;
    }
  }

  lemma KnownIsOrdered(t: Table, id: nat, hardware: bool, suites: seq<nat>)
    requires t(id).Some?
    ensures id in PreferenceOrder(t, hardware, suites)
  {
    assert Listed(t, id);
  }

  /** No earlier entry of the order is allowed. */
  ghost predicate MostPreferred(t: Table, order: seq<nat>, config: Config, request: Request, a: Abilities, vers: nat, id: nat) {
    exists i :: 0 <= i < |order| && order[i] == id && Allowed(t, config, request, a, vers, id)
                && forall j :: 0 <= j < i ==> !Allowed(t, config, request, a, vers, order[j])
  }

  /** Selecting from the filtered list is selecting the first allowed entry of the order. */
  lemma {:induction false} FilteredFirst(t: Table, order: seq<nat>, config: Config, request: Request, a: Abilities, vers: nat)
    ensures match Select(t, Configured(order, config.suites), request.suites, OkFilter(a, vers))
            case None => forall id :: id in order ==> !Allowed(t, config, request, a, vers, id)
            case Some(s) => t(s.id) == Some(s) && MostPreferred(t, order, config, request, a, vers, s.id)
  {
    if order != [] {
      var (first, rest) := (order[0], order[1..]);
      FilteredFirst(t, rest, config, request, a, vers);
      if Allowed(t, config, request, a, vers, first) {
        FirstTaken(t, first, Configured(rest, config.suites), request.suites, OkFilter(a, vers));
        assert Listed(t, first) && order[0] == first;
      } else {
        FirstPassed(t, first, config.suites, Configured(rest, config.suites), request.suites, OkFilter(a, vers));
        LaterPreferred(t, order, config, request, a, vers, Select(t, Configured(rest, config.suites), request.suites, OkFilter(a, vers)));
      }
    }
  }

  lemma LaterPreferred(t: Table, order: seq<nat>, config: Config, request: Request, a: Abilities, vers: nat, r: Option<CipherSuite>)
    requires order != [] && !Allowed(t, config, request, a, vers, order[0])
    ensures r.None? && (forall id :: id in order[1..] ==> !Allowed(t, config, request, a, vers, id))
            ==> forall id :: id in order ==> !Allowed(t, config, request, a, vers, id)
    ensures r.Some? && MostPreferred(t, order[1..], config, request, a, vers, r.value.id)
            ==> MostPreferred(t, order, config, request, a, vers, r.value.id)
  {
    var rest := order[1..];
    assert forall id :: id in order ==> id == order[0] || id in rest;
    if r.Some? && MostPreferred(t, rest, config, request, a, vers, r.value.id) {
      var i :| 0 <= i < |rest| && rest[i] == r.value.id && forall j :: 0 <= j < i ==> !Allowed(t, config, request, a, vers, rest[j]);
      assert order[i + 1] == r.value.id;
      assert forall j :: 0 < j < i + 1 ==> order[j] == rest[j - 1];
    }
  }

  lemma FirstTaken(t: Table, first: nat, list: seq<nat>, supported: seq<nat>, ok: Filter)
    requires Eligible(t, first, supported, ok)
    ensures Select(t, [first] + list, supported, ok) == t(first)
  {
  }

  lemma FirstPassed(t: Table, first: nat, suites: seq<nat>, list: seq<nat>, supported: seq<nat>, ok: Filter)
    requires first in suites ==> !Eligible(t, first, supported, ok)
    ensures Select(t, (if first in suites then [first] else []) + list, supported, ok) == Select(t, list, supported, ok)
  {
    if first in suites {
      assert ([first] + list)[1..] == list;
    } else {
      assert [] + list == list;
    }
  }

  /** A key that decrypts without being an RSA key. */
  predicate DecryptsOtherwise(cert: Certificate) {
    cert.decrypts && cert.kind != RsaKey
  }

  /** Among accepted certificates these are the only ones the server cannot use. */
  lemma UsableUnlessDecryptsOtherwise(t: Table, config: Config, request: Request, cert: Certificate, vers: nat)
    requires SupportsCertificate(t, config, request, cert, vers)
    ensures AbilitiesOf(config, request, cert).None? <==> DecryptsOtherwise(cert)
  {
  }

  /**
   * If SupportsCertificate accepts, the server's selection with the same hello and config finds a suite,
   * the most preferred one that is mutual and allowed, whatever the order of either list; it reports an
   * internal error instead if and only if the private key decrypts without being an RSA key.
   */
  lemma SupportPredictsSelection(t: Table, config: Config, request: Request, cert: Certificate, vers: nat, hardware: bool)
    requires SupportsCertificate(t, config, request, cert, vers)
    ensures AbilitiesOf(config, request, cert).Some? <==> !DecryptsOtherwise(cert)
    ensures match Pick(t, config, request, cert, vers, hardware)
            case InternalError => DecryptsOtherwise(cert)
            case NoSuite => false
            case InappropriateFallback => !DecryptsOtherwise(cert) && FallsBack(config, request)
            case Picked(s) =>
              && !DecryptsOtherwise(cert) && !FallsBack(config, request) && t(s.id) == Some(s)
              && MostPreferred(t, PreferenceOrder(t, hardware, request.suites), config, request, AbilitiesOf(config, request, cert).value, vers, s.id)
  {
    UsableUnlessDecryptsOtherwise(t, config, request, cert, vers);
    var order := PreferenceOrder(t, hardware, request.suites);
    if AbilitiesOf(config, request, cert).Some? {
      var a := AbilitiesOf(config, request, cert).value;
      var id := SupportedIsAllowed(t, config, request, cert, vers, a);
      KnownIsOrdered(t, id, hardware, request.suites);
      FilteredFirst(t, order, config, request, a, vers);
    }
  }

  /** The client's first suite that the server knows is one of AES-GCM: entry i of its list. */
  ghost predicate GcmFirst(t: Table, suites: seq<nat>, i: nat) {
    && i < |suites| && suites[i] in {0x1301, 0x1302, 0xc02b, 0xc02c, 0xc02f, 0xc030}
    && (suites[i] in {0x1301, 0x1302} || t(suites[i]).Some?)
    && forall j :: 0 <= j < i ==> t(suites[j]).None? && suites[j] !in {0x1301, 0x1302, 0x1303}
  }

  lemma {:induction false} GcmPreferredExactly(t: Table, suites: seq<nat>)
    ensures AesGcmPreferred(t, suites) <==> exists i: nat :: GcmFirst(t, suites, i)
  {
    if suites != [] {
      var rest := suites[1..];
      if KnownSuite(t, suites[0]) {
        assert IsAesGcm(suites[0]) ==> GcmFirst(t, suites, 0);
      } else {
        GcmPreferredExactly(t, rest);
        forall i: nat
          ensures GcmFirst(t, rest, i) <==> GcmFirst(t, suites, i + 1)
        {
          assert forall j :: 1 <= j < |suites| ==> suites[j] == rest[j - 1];
        }
        if i: nat :| GcmFirst(t, suites, i) {
          assert GcmFirst(t, rest, i - 1);
        }
      }
    }
  }

  /** The certificate's key and the client's offers carry this suite at this version. */
  predicate Carries(config: Config, request: Request, cert: Certificate, vers: nat, s: CipherSuite) {
    && (s.flags.tls12 ==> vers >= 0x0303)
    && if s.flags.ecdhe then
         && (exists c :: c in request.curves && c in config.curves) && (request.points == [] || 0 in request.points) && cert.signs
         && (if s.flags.ecSign then cert.kind.EcdsaKey? || cert.kind.Ed25519Key? else cert.kind.RsaKey?)
       else cert.decrypts && cert.kind.RsaKey?
  }

  /** Both sides have the suite and can use it. */
  predicate Mutual(t: Table, config: Config, request: Request, cert: Certificate, vers: nat, id: nat) {
    id in config.suites && id in request.suites && t(id).Some? && Carries(config, request, cert, vers, t(id).value)
  }

  /** Entry i is the first mutual suite of an order. */
  ghost predicate FirstMutual(t: Table, order: seq<nat>, config: Config, request: Request, cert: Certificate, vers: nat, i: nat, id: nat) {
    && i < |order| && order[i] == id && Mutual(t, config, request, cert, vers, id)
    && forall j :: 0 <= j < i ==> !Mutual(t, config, request, cert, vers, order[j])
  }

  lemma AllowedIsMutual(t: Table, config: Config, request: Request, cert: Certificate, vers: nat, a: Abilities, id: nat)
    requires AbilitiesOf(config, request, cert) == Some(a)
    ensures Allowed(t, config, request, a, vers, id) <==> Mutual(t, config, request, cert, vers, id)
  {
  }

  /** The client has AES hardware too, as far as its list tells. */
  ghost predicate PutsGcmFirst(t: Table, suites: seq<nat>) {
    exists k: nat :: GcmFirst(t, suites, k)
  }

  ghost function OrderFor(t: Table, hardware: bool, suites: seq<nat>): seq<nat> {
    if hardware && PutsGcmFirst(t, suites) then PREFERENCE_ORDER else PREFERENCE_ORDER_NO_AES
  }

  /**
   * The server's choice, written out: unless the key has a kind it cannot use or the client fell back without
   * need, it is the first mutual suite, in the order with AES-GCM in front exactly if there is AES hardware on
   * this side and the client puts AES-GCM first, and in the order with ChaCha20 in front otherwise.
   */
  lemma PickedExactly(t: Table, config: Config, request: Request, cert: Certificate, vers: nat, hardware: bool, s: CipherSuite)
    ensures Pick(t, config, request, cert, vers, hardware) == Picked(s) <==>
      && t(s.id) == Some(s)
      && !(cert.signs && cert.kind.OtherKey?) && (cert.decrypts ==> cert.kind.RsaKey?)
      && !(0x5600 in request.suites && request.vers < config.maxVersion)
      && exists i: nat :: FirstMutual(t, OrderFor(t, hardware, request.suites), config, request, cert, vers, i, s.id)
  {
    OrderExactly(t, hardware, request.suites);
    var order := OrderFor(t, hardware, request.suites);
    if AbilitiesOf(config, request, cert).Some? {
      SelectExactly(t, order, config, request, cert, vers, AbilitiesOf(config, request, cert).value, s);
    }
  }

  lemma OrderExactly(t: Table, hardware: bool, suites: seq<nat>)
    ensures OrderFor(t, hardware, suites) == PreferenceOrder(t, hardware, suites)
  {
    GcmPreferredExactly(t, suites);
  }

  lemma SelectExactly(t: Table, order: seq<nat>, config: Config, request: Request, cert: Certificate, vers: nat, a: Abilities, s: CipherSuite)
    requires AbilitiesOf(config, request, cert) == Some(a)
    ensures Select(t, Configured(order, config.suites), request.suites, OkFilter(a, vers)) == Some(s) <==>
      t(s.id) == Some(s) && exists i: nat :: FirstMutual(t, order, config, request, cert, vers, i, s.id)
  {
    FilteredFirst(t, order, config, request, a, vers);
    forall id: nat
      ensures Allowed(t, config, request, a, vers, id) <==> Mutual(t, config, request, cert, vers, id)
    {
      AllowedIsMutual(t, config, request, cert, vers, a, id);
    }
    SelectedIsFirstMutual(t, order, config, request, cert, vers, a, s);
  }

  lemma SelectedIsFirstMutual(t: Table, order: seq<nat>, config: Config, request: Request, cert: Certificate, vers: nat, a: Abilities, s: CipherSuite)
    requires forall id: nat :: Allowed(t, config, request, a, vers, id) <==> Mutual(t, config, request, cert, vers, id)
    requires match Select(t, Configured(order, config.suites), request.suites, OkFilter(a, vers))
             case None => forall id :: id in order ==> !Allowed(t, config, request, a, vers, id)
             case Some(r) => t(r.id) == Some(r) && MostPreferred(t, order, config, request, a, vers, r.id)
    ensures Select(t, Configured(order, config.suites), request.suites, OkFilter(a, vers)) == Some(s) <==>
      t(s.id) == Some(s) && exists i: nat :: FirstMutual(t, order, config, request, cert, vers, i, s.id)
  {
    var r := Select(t, Configured(order, config.suites), request.suites, OkFilter(a, vers));
    if r.Some? {
      var k :| 0 <= k < |order| && order[k] == r.value.id && Allowed(t, config, request, a, vers, order[k])
               && forall j :: 0 <= j < k ==> !Allowed(t, config, request, a, vers, order[j]);
      assert FirstMutual(t, order, config, request, cert, vers, k, r.value.id);
      forall i: nat | FirstMutual(t, order, config, request, cert, vers, i, s.id)
        ensures i == k
      {
        assert Allowed(t, config, request, a, vers, order[i]);
      }
    } else {
      forall i: nat
        ensures !FirstMutual(t, order, config, request, cert, vers, i, s.id)
      {
        if i < |order| {
          assert order[i] in order;
        }
      }
    }
  }

  /** No mutual suite stands before the first one. */
  lemma NotAfter(t: Table, order: seq<nat>, config: Config, request: Request, cert: Certificate, vers: nat, i: nat, id: nat, k: nat)
    requires FirstMutual(t, order, config, request, cert, vers, i, id) && k < |order| && Mutual(t, config, request, cert, vers, order[k])
    ensures i <= k
  {
  }

  lemma FrontOfOrders(i: nat)
    ensures i < 4 ==> i < |PREFERENCE_ORDER| && PREFERENCE_ORDER[i] in {0xc02b, 0xc02c, 0xc02f, 0xc030}
    ensures i < 2 ==> i < |PREFERENCE_ORDER_NO_AES| && PREFERENCE_ORDER_NO_AES[i] in {0xcca8, 0xcca9}
  {
  }

  /** Where AES-GCM and ChaCha20 stand in the orders that put them first. */
  function Place(id: nat): nat {
    if id == 0xc02b || id == 0xcca9 then 0 else if id == 0xc02f || id == 0xcca8 then 1 else if id == 0xc02c then 2 else 3
  }

  lemma Placed(id: nat)
    ensures id in {0xc02b, 0xc02c, 0xc02f, 0xc030} ==> Place(id) < 4 && Place(id) < |PREFERENCE_ORDER| && PREFERENCE_ORDER[Place(id)] == id
    ensures id in {0xcca8, 0xcca9} ==> Place(id) < 2 && Place(id) < |PREFERENCE_ORDER_NO_AES| && PREFERENCE_ORDER_NO_AES[Place(id)] == id
  {
  }

  /** Where both could be used, AES-GCM is picked exactly if both sides have the hardware for it, and ChaCha20 otherwise. */
  lemma HardwareDecides(t: Table, config: Config, request: Request, cert: Certificate, vers: nat, hardware: bool, s: CipherSuite, gcm: nat, chacha: nat)
    requires Pick(t, config, request, cert, vers, hardware) == Picked(s)
    requires gcm in {0xc02b, 0xc02c, 0xc02f, 0xc030} && Mutual(t, config, request, cert, vers, gcm)
    requires chacha in {0xcca8, 0xcca9} && Mutual(t, config, request, cert, vers, chacha)
    ensures if hardware && PutsGcmFirst(t, request.suites) then s.id in {0xc02b, 0xc02c, 0xc02f, 0xc030} else s.id in {0xcca8, 0xcca9}
  {
    PickedExactly(t, config, request, cert, vers, hardware, s);
    var order := OrderFor(t, hardware, request.suites);
    var i: nat :| FirstMutual(t, order, config, request, cert, vers, i, s.id);
    var best := if hardware && PutsGcmFirst(t, request.suites) then gcm else chacha;
    Placed(best);
    NotAfter(t, order, config, request, cert, vers, i, s.id, Place(best));
    FrontOfOrders(i);
  }

  /** A suite both sides list, of this kind and usable at this version. */
  ghost predicate Shares(t: Table, config: Config, request: Request, vers: nat, ecdhe: bool, ecSign: bool) {
    exists id :: id in request.suites && id in config.suites && t(id).Some? && SharedKind(t(id).value.flags, vers, ecdhe, ecSign)
  }

  predicate SharedKind(f: Flags, vers: nat, ecdhe: bool, ecSign: bool) {
    f.ecdhe == ecdhe && (ecdhe ==> f.ecSign == ecSign) && (f.tls12 ==> vers >= 0x0303)
  }

  lemma SharedExactly(t: Table, config: Config, request: Request, vers: nat)
    ensures Select(t, request.suites, config.suites, RsaFilter(vers)).Some? <==> Shares(t, config, request, vers, false, false)
    ensures Select(t, request.suites, config.suites, EcdheFilter(vers, true)).Some? <==> Shares(t, config, request, vers, true, true)
    ensures Select(t, request.suites, config.suites, EcdheFilter(vers, false)).Some? <==> Shares(t, config, request, vers, true, false)
  {
    SelectsIfShared(t, config, request, vers, false, false, RsaFilter(vers));
    SelectsIfShared(t, config, request, vers, true, true, EcdheFilter(vers, true));
    SelectsIfShared(t, config, request, vers, true, false, EcdheFilter(vers, false));
  }

  lemma SelectsIfShared(t: Table, config: Config, request: Request, vers: nat, ecdhe: bool, ecSign: bool, ok: Filter)
    requires forall s :: ok(s) <==> SharedKind(s.flags, vers, ecdhe, ecSign)
    ensures Select(t, request.suites, config.suites, ok).Some? <==> Shares(t, config, request, vers, ecdhe, ecSign)
  {
    SelectsFirst(t, request.suites, config.suites, ok);
    if id :| id in request.suites && id in config.suites && t(id).Some? && SharedKind(t(id).value.flags, vers, ecdhe, ecSign) {
      assert Eligible(t, id, config.suites, ok);
    }
  }

  /** The key can sign in ECDHE suites of this kind: ECDSA on a shared curve, Ed25519 from TLS 1.2 on, or RSA. */
  predicate SignsFor(config: Config, request: Request, cert: Certificate, vers: nat, ecSign: bool) {
    cert.signs &&
    match cert.kind
    case EcdsaKey(curve) => ecSign && curve.Some? && curve.value in request.curves && curve.value in config.curves
    case Ed25519Key => ecSign && vers >= 0x0303 && request.schemes != []
    case RsaKey => !ecSign
    case OtherKey => false
  }

  /** An ECDHE suite both sides list has a curve, a point format, a signature scheme and a key to go with it. */
  ghost predicate SupportedByEcdhe(t: Table, config: Config, request: Request, cert: Certificate, vers: nat) {
    && (request.schemes == [] || request.schemeOk)
    && (exists c :: c in request.curves && c in config.curves) && (request.points == [] || 0 in request.points)
    && ((SignsFor(config, request, cert, vers, true) && Shares(t, config, request, vers, true, true))
        || (SignsFor(config, request, cert, vers, false) && Shares(t, config, request, vers, true, false)))
  }

  /**
   * SupportsCertificate accepts exactly if the name fits and either an ECDHE suite or, for an RSA key that
   * decrypts, a static RSA suite both sides list can be used.
   */
  lemma SupportedExactly(t: Table, config: Config, request: Request, cert: Certificate, vers: nat)
    ensures SupportsCertificate(t, config, request, cert, vers) <==>
      && request.nameOk
      && (SupportedByEcdhe(t, config, request, cert, vers)
          || (cert.decrypts && cert.kind.RsaKey? && Shares(t, config, request, vers, false, false)))
  {
    SharedExactly(t, config, request, vers);
  }

  /** cipherSuiteByID on the real table. */
  function RealTable(): Table {
    assert forall id :: Listed(SuiteById, id) by {
      forall id
        ensures Listed(SuiteById, id)
      {
        if SuiteById(id).Some? {
          var i :| 0 <= i < |CIPHER_SUITES| && CIPHER_SUITES[i] == SuiteById(id).value;
          OrdersAreComplete(i);
        }
      }
    }
    SuiteById
  }

  const P256 := 23

  /** An ECDSA key that also implements Decrypter is accepted, yet the server cannot use it. */
  lemma DecryptingEcdsaMispredicted(t: Table, id: nat)
    requires t(id).Some? && t(id).value.flags.ecdhe && t(id).value.flags.ecSign
    ensures var cert := Certificate(EcdsaKey(Some(P256)), true, true);
            var request := Request([id], [P256], [], [], VERSION_TLS12, true, true);
            var config := Config([id], [P256], VERSION_TLS12);
            SupportsCertificate(t, config, request, cert, VERSION_TLS12) && Pick(t, config, request, cert, VERSION_TLS12, true) == InternalError
  {
    var request := Request([id], [P256], [], [], VERSION_TLS12, true, true);
    var config := Config([id], [P256], VERSION_TLS12);
    assert P256 in request.curves && P256 in config.curves;
    assert Eligible(t, id, config.suites, EcdheFilter(VERSION_TLS12, true));
    assert Select(t, request.suites, config.suites, EcdheFilter(VERSION_TLS12, true)) == t(id);
  }

  lemma SecondOfTable()
    ensures RealTable()(0xcca9) == Some(ChaCha(0xcca9, ECDSA12))
  {
    var rest := CIPHER_SUITES[1..];
    assert CIPHER_SUITES[0].id == 0xcca8 && rest[0] == ChaCha(0xcca9, ECDSA12);
    assert FindSuite(rest, 0xcca9) == Some(rest[0]);
  }

  /** With the real table, for instance, under TLS_ECDHE_ECDSA_WITH_CHACHA20_POLY1305. */
  lemma DecryptingEcdsaExample()
    ensures var cert := Certificate(EcdsaKey(Some(P256)), true, true);
            var request := Request([0xcca9], [P256], [], [], VERSION_TLS12, true, true);
            var config := Config([0xcca9], [P256], VERSION_TLS12);
            && SupportsCertificate(RealTable(), config, request, cert, VERSION_TLS12)
            && Pick(RealTable(), config, request, cert, VERSION_TLS12, true) == InternalError
  {
    SecondOfTable();
    DecryptingEcdsaMispredicted(RealTable(), 0xcca9);
  }
}
