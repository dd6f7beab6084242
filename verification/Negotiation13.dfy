/**
 * handshake_server_tls13.go and handshake_server.go: which suite, group and protocol a TLS 1.3 server
 * settles on. Each search is characterised by positions: the first entry of the server's own list that
 * the client can meet, and nothing before it.
 */
module Negotiation13 {
  import opened Bytes
  import opened Wire
  import opened HelloParts
  import opened Handshake13
  import CH = ClientHello

  /** The suites of TLS 1.3 that are implemented. */
  predicate Known(id: u16) {
    id == 0x1301 || id == 0x1302 || id == 0x1303
  }

  /** Entry i is the first known suite of the preferences that the client offers, and `suite` is that suite. */
  ghost predicate TakesSuite(preference: seq<u16>, offered: seq<u16>, i: nat, suite: Suite) {
    && i < |preference| && preference[i] == suite.id && suite.id in offered && Known(suite.id)
    && (suite.hash.Sha384? <==> suite.id == 0x1302)
    && forall j :: 0 <= j < i ==> !(preference[j] in offered && Known(preference[j]))
  }

  lemma {:induction false} SuiteFound(preference: seq<u16>, offered: seq<u16>) returns (i: nat)
    ensures match SelectSuite(preference, offered)
            case Some(suite) => TakesSuite(preference, offered, i, suite)
            case None => forall j :: 0 <= j < |preference| ==> !(preference[j] in offered && Known(preference[j]))
  {
    i := 0;
    if preference != [] && MutualSuite(offered, preference[0]).None? {
      var rest := SuiteFound(preference[1..], offered);
      i := rest + 1;
      assert forall j :: 1 <= j < |preference| ==> preference[j] == preference[1..][j - 1];
    }
  }

  /** The suite selected is the server's first preferred one among those the client offers, and the only one that is. */
  lemma SuiteIsFirstPreferred(preference: seq<u16>, offered: seq<u16>, suite: Suite)
    ensures SelectSuite(preference, offered) == Some(suite) <==> exists i: nat :: TakesSuite(preference, offered, i, suite)
  {
    var i := SuiteFound(preference, offered);
    forall k: nat | TakesSuite(preference, offered, k, suite)
      ensures SelectSuite(preference, offered) == Some(suite)
    {
      assert SelectSuite(preference, offered).Some? ==> i == k;
    }
  }

  /** `share` is the client's first key share for the group. */
  ghost predicate SharesGroup(shares: seq<KeyShare>, group: u16, share: KeyShare) {
    share.group == group && exists k :: 0 <= k < |shares| && shares[k] == share && forall j :: 0 <= j < k ==> shares[j].group != group
  }

  predicate HasShare(shares: seq<KeyShare>, group: u16) {
    exists k :: 0 <= k < |shares| && shares[k].group == group
  }

  lemma {:induction false} ShareFound(shares: seq<KeyShare>, group: u16)
    ensures match FirstShare(shares, group)
            case Some(share) => HasShare(shares, group) && SharesGroup(shares, group, share)
            case None => !HasShare(shares, group)
  {
    if shares != [] {
      if shares[0].group == group {
        assert shares[0] == FirstShare(shares, group).value;
      } else {
        var rest := shares[1..];
        ShareFound(rest, group);
        assert forall j :: 1 <= j < |shares| ==> shares[j] == rest[j - 1];
        if FirstShare(rest, group).Some? {
          var k :| 0 <= k < |rest| && rest[k] == FirstShare(rest, group).value && forall j :: 0 <= j < k ==> rest[j].group != group;
          assert shares[k + 1] == rest[k];
        }
      }
    }
  }

  /** Entry i is the first preferred group the client sent a share for. */
  ghost predicate TakesShared(preference: seq<u16>, shares: seq<KeyShare>, i: nat, group: u16) {
    && i < |preference| && preference[i] == group && HasShare(shares, group)
    && forall j :: 0 <= j < i ==> !HasShare(shares, preference[j])
  }

  /** Entry i is the first preferred group the client supports; the reserved group 0 stands for none. */
  ghost predicate TakesSupported(preference: seq<u16>, curves: seq<u16>, i: nat, group: u16) {
    && i < |preference| && preference[i] == group && group in curves && group != 0
    && forall j :: 0 <= j < i ==> preference[j] == 0 || preference[j] !in curves
  }

  /** Without a share, the group already selected stays, or else the first supported one is taken. */
  ghost predicate Unshared(preference: seq<u16>, curves: seq<u16>, selected: u16, i: nat, group: u16) {
    if selected != 0 then group == selected
    else TakesSupported(preference, curves, i, group)
         || (group == 0 && forall j :: 0 <= j < |preference| ==> preference[j] == 0 || preference[j] !in curves)
  }

  lemma {:induction false} GroupFound(preference: seq<u16>, shares: seq<KeyShare>, curves: seq<u16>, selected: u16) returns (i: nat)
    ensures var (group, share) := SelectGroup(preference, shares, curves, selected);
            match share
            case Some(share) => TakesShared(preference, shares, i, group) && SharesGroup(shares, group, share)
            case None =>
              && (forall j :: 0 <= j < |preference| ==> !HasShare(shares, preference[j]))
              && Unshared(preference, curves, selected, i, group)
  {
    i := 0;
    if preference != [] {
      ShareFound(shares, preference[0]);
      if FirstShare(shares, preference[0]).None? {
        var now := if selected == 0 && preference[0] in curves then preference[0] else selected;
        var rest := GroupFound(preference[1..], shares, curves, now);
        assert forall j :: 1 <= j < |preference| ==> preference[j] == preference[1..][j - 1];
        if SelectGroup(preference, shares, curves, selected).1.Some? || now == 0 {
          i := rest + 1;
        }
      }
    }
  }

  /** The group and share a hello leads to: a preferred group with a share before any without. */
  ghost predicate TakesGroup(preference: seq<u16>, ch: CH.Hello, group: u16, share: Option<KeyShare>) {
    match share
    case Some(share) => SharesGroup(ch.modern.keyShares, group, share) && exists i: nat :: TakesShared(preference, ch.modern.keyShares, i, group)
    case None =>
      && (forall j :: 0 <= j < |preference| ==> !HasShare(ch.modern.keyShares, preference[j]))
      && exists i: nat :: TakesSupported(preference, ch.common.supportedCurves, i, group)
  }

  /** The group is the first preferred one with a key share; if there is none, the first one the client supports. */
  lemma GroupIsFirstPreferred(preference: seq<u16>, ch: CH.Hello, group: u16, share: Option<KeyShare>)
    requires group != 0
    ensures SelectGroup(preference, ch.modern.keyShares, ch.common.supportedCurves, 0) == (group, share) <==> TakesGroup(preference, ch, group, share)
  {
    var i := GroupFound(preference, ch.modern.keyShares, ch.common.supportedCurves, 0);
    var (g, found) := SelectGroup(preference, ch.modern.keyShares, ch.common.supportedCurves, 0);
    if TakesGroup(preference, ch, group, share) {
      GroupUnique(preference, ch, group, share, i, g, found);
    }
  }

  lemma GroupUnique(preference: seq<u16>, ch: CH.Hello, group: u16, share: Option<KeyShare>, i: nat, g: u16, found: Option<KeyShare>)
    requires TakesGroup(preference, ch, group, share)
    requires if found.Some? then TakesShared(preference, ch.modern.keyShares, i, g) && SharesGroup(ch.modern.keyShares, g, found.value)
             else (forall j :: 0 <= j < |preference| ==> !HasShare(ch.modern.keyShares, preference[j]))
                  && Unshared(preference, ch.common.supportedCurves, 0, i, g)
    ensures (g, found) == (group, share)
  {
    var shares := ch.modern.keyShares;
    if share.Some? {
      var k: nat :| TakesShared(preference, shares, k, group);
      assert found.Some? ==> i == k;
    } else {
      var k: nat :| TakesSupported(preference, ch.common.supportedCurves, k, group);
      assert found.None? ==> g == group || i == k;
    }
  }

  /**
   * processClientHello settles on this offer exactly if the hello is a TLS 1.3 one with null compression
   * alone, no renegotiation and no early data, and suite and group are the first preferred ones.
   */
  lemma HelloAcceptedExactly(conf: ServerConf, ch: CH.Hello, offer: Offer)
    requires offer.group != 0
    ensures AcceptHello(conf, ch) == Ok(offer) <==>
      && ch.modern.supportedVersions != [] && ch.compressionMethods == [0] && ch.common.secureRenegotiation == [] && !ch.modern.earlyData
      && (exists i: nat :: TakesSuite(conf.suitePreference, ch.cipherSuites, i, offer.suite))
      && TakesGroup(conf.curvePreference, ch, offer.group, offer.share)
  {
    SuiteIsFirstPreferred(conf.suitePreference, ch.cipherSuites, offer.suite);
    GroupIsFirstPreferred(conf.curvePreference, ch, offer.group, offer.share);
  }

  /** Entry i is the first of the server's protocols that the client offers. */
  ghost predicate TakesProtocol(ours: seq<bytes>, theirs: seq<bytes>, i: nat, protocol: bytes) {
    && i < |ours| && ours[i] == protocol && protocol in theirs
    && forall j :: 0 <= j < i ==> ours[j] !in theirs
  }

  lemma {:induction false} ProtocolFound(ours: seq<bytes>, theirs: seq<bytes>) returns (i: nat)
    ensures match FirstCommon(ours, theirs)
            case Some(protocol) => TakesProtocol(ours, theirs, i, protocol)
            case None => forall j :: 0 <= j < |ours| ==> ours[j] !in theirs
  {
    i := 0;
    if ours != [] && ours[0] !in theirs {
      var rest := ProtocolFound(ours[1..], theirs);
      i := rest + 1;
      assert forall j :: 1 <= j < |ours| ==> ours[j] == ours[1..][j - 1];
    }
  }

  /**
   * negotiateALPN: the server's first protocol among the client's. Without one, a side that offers none, or a
   * server that speaks h2 to a client that speaks http/1.1, goes on without a protocol; others are refused.
   */
  lemma ProtocolIsFirstPreferred(ours: seq<bytes>, theirs: seq<bytes>, protocol: bytes)
    ensures NegotiateAlpn(ours, theirs) == Some(protocol) <==>
      if exists i: nat, p :: TakesProtocol(ours, theirs, i, p) then exists i: nat :: TakesProtocol(ours, theirs, i, protocol)
      else protocol == [] && (ours == [] || theirs == [] || (H2 in ours && HTTP11 in theirs))
  {
    var i := ProtocolFound(ours, theirs);
    if FirstCommon(ours, theirs).Some? {
      assert TakesProtocol(ours, theirs, i, FirstCommon(ours, theirs).value);
      forall k: nat | TakesProtocol(ours, theirs, k, protocol)
        ensures protocol == FirstCommon(ours, theirs).value
      {
        assert i == k;
      }
    }
  }
}
