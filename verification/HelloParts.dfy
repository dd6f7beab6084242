/** common.go and handshake_messages.go: extension codes and the key share both hellos use. */
module HelloParts {
  import opened Bytes
  import opened Wire

  const EXTENSION_SERVER_NAME: u16 := 0
  const EXTENSION_STATUS_REQUEST: u16 := 5
  const EXTENSION_SUPPORTED_CURVES: u16 := 10
  const EXTENSION_SUPPORTED_POINTS: u16 := 11
  const EXTENSION_SIGNATURE_ALGORITHMS: u16 := 13
  const EXTENSION_ALPN: u16 := 16
  const EXTENSION_SCT: u16 := 18
  const EXTENSION_SESSION_TICKET: u16 := 35
  const EXTENSION_PRE_SHARED_KEY: u16 := 41
  const EXTENSION_EARLY_DATA: u16 := 42
  const EXTENSION_SUPPORTED_VERSIONS: u16 := 43
  const EXTENSION_COOKIE: u16 := 44
  const EXTENSION_PSK_MODES: u16 := 45
  const EXTENSION_SIGNATURE_ALGORITHMS_CERT: u16 := 50
  const EXTENSION_KEY_SHARE: u16 := 51
  const EXTENSION_RENEGOTIATION_INFO: u16 := 0xff01

  datatype KeyShare = KeyShare(group: u16, data: bytes)

  predicate ShareValid(k: KeyShare) {
    NonEmptyFits(k.data, 2)
  }

  function WriteShare(k: KeyShare): bytes {
    Be(k.group, 2) + Prefixed(k.data, 2)
  }

  function ReadShare(s: bytes): Option<(KeyShare, bytes)> {
    match ReadU16(s)
    case None => None
    case Some((group, tail)) =>
      match ReadNonEmpty(tail, 2)
      case None => None
      case Some((data, rest)) => Some((KeyShare(group, data), rest))
  }

  function Shares(): ItemFormat<KeyShare> {
    SharesLawful();
    Format(ShareValid, WriteShare, ReadShare)
  }

  lemma SharesLawful()
    ensures Lawful(Format(ShareValid, WriteShare, ReadShare))
  {
    var f := Format(ShareValid, WriteShare, ReadShare);
    forall x: KeyShare, rest
      ensures ReadsBack(f, x, rest)
    {
      if f.valid(x) {
        ReadsU16(x.group, Prefixed(x.data, 2) + rest);
        ReadsPrefixed(x.data, 2, rest);
        assert WriteShare(x) + rest == Be(x.group, 2) + (Prefixed(x.data, 2) + rest);
      }
    }
    forall s
      ensures ReadsOnlyWritten(f, s)
    {
      if f.read(s).Some? {
        UintRead(s, 2);
        PrefixedRead(ReadU16(s).value.1, 2);
        var (x, rest) := f.read(s).value;
        assert WriteShare(x) + rest == Be(x.group, 2) + (Prefixed(x.data, 2) + rest);
      }
    }
  }

  predicate NoneEmpty(vs: seq<bytes>) {
    forall i :: 0 <= i < |vs| ==> vs[i] != []
  }
}
