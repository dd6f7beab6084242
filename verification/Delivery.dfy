/**
 * conn.go: what the record reader hands on. Which records are delivered, ignored or fatal, that what is
 * delivered is the content of the record that decided the call, and what Conn.Read makes of it.
 */
module Delivery {
  import opened Bytes
  import opened RecordLayer
  import opened RecordReader
  import opened Reassembly

  /** The record's content becomes input, joins the handshake buffer, or switches the cipher; nothing else changes. */
  ghost predicate Delivers(s: Reader, t: Reader, typ: byte, data: bytes) {
    || (typ == 23 && data != [] && t == s.(input := data, retryCount := 0))
    || (typ == 22 && data != [] && t == s.(hand := s.hand + data, retryCount := 0))
    || (typ == 20 && data == [1] && !s.next.cipher.NullCipher?
        && t == s.(half := Half(s.half.version, s.next.cipher, s.next.mac, 0), next := Prepared(NullCipher, None),
                   cipherSpecs := s.cipherSpecs + 1))
  }

  /** When a record of this type is wanted at all. */
  predicate Wanted(s: Reader, typ: byte, expectCcs: bool) {
    match typ
    case 23 => s.conf.handshakeComplete && !expectCcs && !s.half.cipher.NullCipher? && (s.conf.vers == VERSION_TLS13 ==> s.hand == [])
    case 22 => !expectCcs
    case 20 => expectCcs && s.conf.vers != VERSION_TLS13 && s.half.version != VERSION_TLS13 && s.hand == []
    case _ => false
  }

  /** A record to be passed over: an empty application data record, a warning, or a TLS 1.3 change_cipher_spec. */
  predicate Ignorable(s: Reader, typ: byte, data: bytes, expectCcs: bool) {
    match typ
    case 23 => data == [] && Wanted(s, 23, expectCcs)
    case 21 => s.conf.vers != VERSION_TLS13 && |data| == 2 && data[0] == 1 && data[1] != 0
    case 20 => s.conf.vers == VERSION_TLS13 && data == [1] && s.hand == []
    case _ => false
  }

  /** Records of another type may not come between the parts of a TLS 1.3 handshake message. */
  predicate Interleaved(s: Reader, typ: byte) {
    s.conf.vers == VERSION_TLS13 && typ != 22 && s.hand != []
  }

  /**
   * The fate of a record: delivered exactly if it is wanted, and then with all of its content; ignored exactly
   * if it is one of three kinds; close_notify and other alerts end the connection with what the peer said.
   */
  lemma DispatchExactly(s: Reader, typ: byte, data: bytes, expectCcs: bool, t: Reader)
    requires Sound(s)
    ensures var v := Dispatch(s, typ, data, expectCcs);
            && (v == Done(t) <==> |data| <= MAX_PLAINTEXT && Wanted(s, typ, expectCcs) && Delivers(s, t, typ, data))
            && (v.Retry? <==> Ignorable(s, typ, data, expectCcs)) && (v.Retry? ==> v.s == s)
            && (v.Stop? && v.reason.CloseNotify? <==> typ == 21 && |data| == 2 && data[1] == 0 && !Interleaved(s, typ))
            && (v.Stop? && v.reason.RemoteAlert? <==>
                  && typ == 21 && |data| == 2 && data[1] != 0 && !Interleaved(s, typ)
                  && (s.conf.vers == VERSION_TLS13 || data[0] == 2))
            && (v.Stop? && v.reason.RemoteAlert? ==> v.reason.code == data[1])
            && (v.Stop? && v.reason == LocalAlert(ALERT_RECORD_OVERFLOW) <==> |data| > MAX_PLAINTEXT)
  {
  }

  /** One record taken off the wire at s, leaving s1, and opened to its type and content. */
  ghost predicate Taken(open: Opener, s: Reader, s1: Reader, typ: byte, data: bytes) {
    && HeaderAccepted(s.conf, s.raw) && s.raw == FirstRecord(s.raw) + s1.raw
    && open(s.half, FirstRecord(s.raw)) == Opened(s1.half, data, typ)
    && s1 == s.(half := s1.half, raw := s1.raw)
  }

  /** s2 is s after a record that is passed over and counted. */
  ghost predicate PassesOver(open: Opener, s: Reader, s2: Reader, expectCcs: bool) {
    s2.retryCount > 0 &&
    var s1 := s2.(retryCount := s2.retryCount - 1);
    exists typ, data :: Taken(open, s, s1, typ, data) && Ignorable(s1, typ, data, expectCcs)
  }

  /** The states a call goes through before the record that decides it. */
  ghost predicate Path(open: Opener, path: seq<Reader>, expectCcs: bool) {
    path != [] && forall i :: 0 <= i < |path| - 1 ==> PassesOver(open, path[i], path[i + 1], expectCcs)
  }

  lemma TakeDelivers(open: Opener, s: Reader, expectCcs: bool) returns (typ: byte, data: bytes)
    requires Sound(s)
    ensures match Take(open, s, expectCcs)
            case Ignores(s1) => Taken(open, s, s1, typ, data) && Ignorable(s1, typ, data, expectCcs)
            case Ends(before, t, out, n) =>
              out.Ok? ==> n == 1 && Taken(open, s, before, typ, data) && Delivers(before, t, typ, data) && Wanted(before, typ, expectCcs)
  {
    typ, data := 0, [];
    if !s.failed && s.input == [] {
      var f := Fetch(open, s);
      if f.Got? {
        typ, data := f.typ, f.data;
        var v := Dispatch(f.s, typ, data, expectCcs);
        DispatchExactly(f.s, typ, data, expectCcs, v.s);
      }
    }
  }

  lemma LongerPath(open: Opener, s: Reader, path: seq<Reader>, expectCcs: bool)
    requires Path(open, path, expectCcs) && PassesOver(open, s, path[0], expectCcs)
    ensures Path(open, [s] + path, expectCcs)
  {
    var all := [s] + path;
    forall i | 0 <= i < |all| - 1
      ensures PassesOver(open, all[i], all[i + 1], expectCcs)
    {
      if i > 0 {
        assert PassesOver(open, path[i - 1], path[i - 1 + 1], expectCcs);
      }
    }
  }

  /** An ignored record is counted, and the call goes on after it unless there were too many. */
  lemma IgnoredThenRead(take: Taker, s: Reader, expectCcs: bool) returns (s2: Reader)
    requires Sound(s) && take(s, expectCcs).Ignores? && ReadBy(take, s, expectCcs).out.Ok?
    ensures s2 == take(s, expectCcs).s.(retryCount := take(s, expectCcs).s.retryCount + 1) && Sound(s2) && s2.retryCount == s.retryCount + 1
    ensures var r := ReadBy(take, s2, expectCcs); ReadBy(take, s, expectCcs) == r.(records := r.records + 1)
  {
    assert TakesWell(take, s, expectCcs);
    s2 := take(s, expectCcs).s.(retryCount := take(s, expectCcs).s.retryCount + 1);
  }

  lemma {:induction false} TurnsDeliver(open: Opener, s: Reader, expectCcs: bool) returns (path: seq<Reader>, typ: byte, data: bytes)
    requires Sound(s) && ReadBy(TakerOf(open), s, expectCcs).out.Ok?
    ensures Path(open, path, expectCcs) && path[0] == s
    ensures var r := ReadBy(TakerOf(open), s, expectCcs);
            && r.records == |path| && Taken(open, path[|path| - 1], r.before, typ, data)
            && Wanted(r.before, typ, expectCcs) && Delivers(r.before, r.s, typ, data)
    decreases MAX_USELESS_RECORDS + 1 - s.retryCount
  {
    typ, data := TakeDelivers(open, s, expectCcs);
    path := [s];
    var turn := Take(open, s, expectCcs);
    if turn.Ignores? {
      var s2 := IgnoredThenRead(TakerOf(open), s, expectCcs);
      assert s2.(retryCount := s2.retryCount - 1) == turn.s;
      assert PassesOver(open, s, s2, expectCcs);
      var rest;
      rest, typ, data := TurnsDeliver(open, s2, expectCcs);
      LongerPath(open, s, rest, expectCcs);
      path := [s] + rest;
    }
  }

  /**
   * Every successful read comes from one record: after passing over records of the ignorable kinds only, the
   * next record on the wire, opened under the keys of that moment, is wanted and its content is what was
   * delivered, all of it and nothing else. In particular input set by a read is exactly the content of an
   * application data record.
   */
  lemma ReadDelivers(open: Opener, s: Reader, expectCcs: bool) returns (path: seq<Reader>, typ: byte, data: bytes)
    requires Sound(s) && Read(open, s, expectCcs).out.Ok?
    ensures Path(open, path, expectCcs) && path[0] == s
    ensures var r := Read(open, s, expectCcs);
            && r.records == |path| && Taken(open, path[|path| - 1], r.before, typ, data)
            && Wanted(r.before, typ, expectCcs) && Delivers(r.before, r.s, typ, data)
            && (r.s.input != [] ==> typ == 23 && r.s.input == data)
            && (r.s.hand != s.hand ==> typ == 22 && r.s.hand == s.hand + data)
  {
    path, typ, data := TurnsDeliver(open, s, expectCcs);
    ReadMakesProgress(open, s, expectCcs);
    assert !s.failed && s.input == [];
  }

  lemma {:induction false} TurnsGiveUp(take: Taker, s: Reader, expectCcs: bool)
    requires Sound(s) && ReadBy(take, s, expectCcs).out == Fail(TooManyIgnored)
    requires forall x: Reader :: take(x, expectCcs).Ends? ==> take(x, expectCcs).out != Fail(TooManyIgnored)
    ensures ReadBy(take, s, expectCcs).records == 17 - s.retryCount
    decreases MAX_USELESS_RECORDS + 1 - s.retryCount
  {
    assert TakesWell(take, s, expectCcs);
    var s1 := take(s, expectCcs).s;
    var s2 := s1.(retryCount := s1.retryCount + 1);
    if s2.retryCount <= MAX_USELESS_RECORDS {
      TurnsGiveUp(take, s2, expectCcs);
    }
  }

  lemma NeverAtOnce(open: Opener, s: Reader, expectCcs: bool)
    ensures var r := TakerOf(open)(s, expectCcs); r.Ends? ==> r.out != Fail(TooManyIgnored)
  {
  }

  /** The reader gives up on ignorable records only at the seventeenth in a row, those of earlier calls included. */
  lemma GivesUpAtSeventeen(open: Opener, s: Reader, expectCcs: bool)
    requires Sound(s) && Read(open, s, expectCcs).out == Fail(TooManyIgnored)
    ensures Read(open, s, expectCcs).records + s.retryCount == 17
  {
    forall x: Reader
      ensures TakerOf(open)(x, expectCcs).Ends? ==> TakerOf(open)(x, expectCcs).out != Fail(TooManyIgnored)
    {
      NeverAtOnce(open, x, expectCcs);
    }
    TurnsGiveUp(TakerOf(open), s, expectCcs);
  }

  /** What a failing call sends its peer: the alert of its reason, if it has one of its own. */
  function AlertsFor(out: Outcome): seq<byte> {
    match out
    case Fail(LocalAlert(a)) => [a]
    case Fail(TooManyIgnored) => [10]
    case _ => []
  }

  ghost predicate TurnAlerts(take: Taker, s: Reader, expectCcs: bool) {
    Sound(s) ==> match take(s, expectCcs)
                 case Ends(_, t, out, _) => t.alerts == s.alerts + AlertsFor(out)
                 case Ignores(t) => t.alerts == s.alerts
  }

  lemma TakeAlerts(open: Opener, s: Reader, expectCcs: bool)
    ensures TurnAlerts(TakerOf(open), s, expectCcs)
  {
    assert s.alerts + [] == s.alerts;
    if Sound(s) && !s.failed && s.input == [] {
      var f := Fetch(open, s);
      if f.Got? {
        DispatchEffects(f.s, f.typ, f.data, expectCcs);
        DispatchReasons(f.s, f.typ, f.data, expectCcs);
      }
    }
  }

  lemma DispatchReasons(s: Reader, typ: byte, data: bytes, expectCcs: bool)
    ensures var v := Dispatch(s, typ, data, expectCcs); v.Stop? ==> v.reason != TooManyIgnored
  {
  }

  lemma {:induction false} TurnsAlert(take: Taker, s: Reader, expectCcs: bool)
    requires Sound(s) && forall x :: TurnAlerts(take, x, expectCcs)
    ensures var r := ReadBy(take, s, expectCcs); r.s.alerts == s.alerts + AlertsFor(r.out)
    decreases MAX_USELESS_RECORDS + 1 - s.retryCount
  {
    assert TakesWell(take, s, expectCcs) && TurnAlerts(take, s, expectCcs);
    var turn := take(s, expectCcs);
    if turn.Ignores? {
      var s2 := turn.s.(retryCount := turn.s.retryCount + 1);
      if s2.retryCount <= MAX_USELESS_RECORDS {
        TurnsAlert(take, s2, expectCcs);
      }
    }
  }

  /** A call sends exactly the alert it fails with, once, and none if it succeeds or the failure is the peer's or the network's. */
  lemma AlertsSentExactly(open: Opener, s: Reader, expectCcs: bool)
    requires Sound(s)
    ensures var r := Read(open, s, expectCcs); r.s.alerts == s.alerts + AlertsFor(r.out)
  {
    forall x
      ensures TurnAlerts(TakerOf(open), x, expectCcs)
    {
      TakeAlerts(open, x, expectCcs);
    }
    TurnsAlert(TakerOf(open), s, expectCcs);
  }
}
