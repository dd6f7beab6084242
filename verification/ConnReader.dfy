/** conn.go: the reading methods of Conn, which update its fields in place. */
module ConnReader {
  import opened Bytes
  import opened RecordLayer
  import opened RecordReader
  import opened Reassembly
  import opened DataReader

  class Conn {
    var conf: Progress
    var half: Half
    var next: Prepared
    var cipherSpecs: nat
    var failed: bool
    var input: bytes
    var hand: bytes
    var retryCount: nat
    var raw: bytes
    var alerts: seq<byte>

    function State(): Reader
      reads this
    {
      Reader(conf, half, next, cipherSpecs, failed, input, hand, retryCount, raw, alerts)
    }

    constructor (conf: Progress, half: Half, raw: bytes)
      ensures State() == Reader(conf, half, Prepared(NullCipher, None), 0, false, [], [], 0, raw, [])
    {
      this.conf, this.half, this.raw := conf, half, raw;
      next, cipherSpecs, failed := Prepared(NullCipher, None), 0, false;
      input, hand, retryCount, alerts := [], [], 0, [];
    }

    /** setErrorLocked, after sendAlert where the reason calls for an alert. */
    method SetError(reason: Reason)
      modifies this`failed, this`alerts
      ensures State() == Failed(old(State()), reason)
    {
      failed := true;
      if reason.LocalAlert? {
        alerts := alerts + [reason.alert];
      }
    }

    /** Reads a header and a record from rawInput and decrypts it; None when that ended in an error. */
    method FetchRecord(open: Opener) returns (got: Option<(byte, bytes)>, reason: Reason)
      requires Sound(State())
      modifies this`half, this`raw
      ensures match Fetch(open, old(State()))
              case Got(s, typ, data) => got == Some((typ, data)) && State() == s
              case Broken(s, r, _) => got == None && reason == r && State() == s
    {
      var problem := CheckHeader();
      if problem.Some? {
        return None, problem.value;
      }
      var record := FirstRecord(raw);
      raw := raw[|record|..];
      match open(half, record) {
        case Opened(h, data, t) =>
          half := h;
          return Some((t, data)), ShortRead;
        case Rejected(alert) =>
          return None, LocalAlert(alert);
        case OpenWrapped =>
          return None, SequencePanic;
      }
    }

    /** The header checks. */
    method CheckHeader() returns (problem: Option<Reason>)
      ensures problem == HeaderProblem(conf, raw)
      ensures problem.None? <==> HeaderAccepted(conf, raw)
    {
      if |raw| < RECORD_HEADER_LEN {
        return Some(ShortRead);
      }
      var typ, vers, n := raw[0], Uint(raw[1..3]), Uint(raw[3..5]);
      if !conf.handshakeComplete && typ == 0x80 {
        return Some(LocalAlert(ALERT_PROTOCOL_VERSION));
      }
      if conf.haveVers && conf.vers != VERSION_TLS13 && vers != conf.vers {
        return Some(LocalAlert(ALERT_PROTOCOL_VERSION));
      }
      if !conf.haveVers {
        if (typ != TYPE_ALERT && typ != TYPE_HANDSHAKE) || vers >= 0x1000 {
          return Some(BadHeader);
        }
      }
      if (conf.vers == VERSION_TLS13 && n > MAX_CIPHERTEXT_TLS13) || n > MAX_CIPHERTEXT {
        return Some(LocalAlert(ALERT_RECORD_OVERFLOW));
      }
      if |raw| < RECORD_HEADER_LEN + n {
        return Some(ShortRead);
      }
      return None;
    }

    /** The checks and the switch after decryption. */
    method DispatchRecord(typ: byte, data: bytes, expectCcs: bool) returns (retry: bool, stop: Option<Reason>)
      modifies this
      ensures match Dispatch(old(State()), typ, data, expectCcs)
              case Done(s) => !retry && stop == None && State() == s
              case Retry(s) => retry && stop == None && State() == s
              case Stop(s, r) => stop == Some(r) && State() == s
    {
      retry, stop := false, None;
      if |data| > MAX_PLAINTEXT {
        return false, Some(LocalAlert(ALERT_RECORD_OVERFLOW));
      }
      if half.cipher.NullCipher? && typ == TYPE_APPLICATION_DATA {
        return false, Some(LocalAlert(ALERT_UNEXPECTED_MESSAGE));
      }
      if typ != TYPE_ALERT && typ != TYPE_CHANGE_CIPHER_SPEC && |data| > 0 {
        retryCount := 0;
      }
      if conf.vers == VERSION_TLS13 && typ != TYPE_HANDSHAKE && |hand| > 0 {
        return false, Some(LocalAlert(ALERT_UNEXPECTED_MESSAGE));
      }
      if typ == TYPE_ALERT {
        if |data| != 2 {
          stop := Some(LocalAlert(ALERT_UNEXPECTED_MESSAGE));
        } else if data[1] == ALERT_CLOSE_NOTIFY {
          stop := Some(CloseNotify);
        } else if conf.vers == VERSION_TLS13 || data[0] == ALERT_LEVEL_ERROR {
          stop := Some(RemoteAlert(data[1]));
        } else if data[0] == ALERT_LEVEL_WARNING {
          retry := true;
        } else {
          stop := Some(LocalAlert(ALERT_UNEXPECTED_MESSAGE));
        }
      } else if typ == TYPE_CHANGE_CIPHER_SPEC {
        if |data| != 1 || data[0] != 1 {
          stop := Some(LocalAlert(ALERT_DECODE_ERROR));
        } else if |hand| > 0 {
          stop := Some(LocalAlert(ALERT_UNEXPECTED_MESSAGE));
        } else if conf.vers == VERSION_TLS13 {
          retry := true;
        } else if !expectCcs {
          stop := Some(LocalAlert(ALERT_UNEXPECTED_MESSAGE));
        } else if next.cipher.NullCipher? || half.version == VERSION_TLS13 {
          stop := Some(LocalAlert(ALERT_INTERNAL_ERROR));
        } else {
          half := Half(half.version, next.cipher, next.mac, 0);
          next := Prepared(NullCipher, None);
          cipherSpecs := cipherSpecs + 1;
        }
      } else if typ == TYPE_APPLICATION_DATA {
        if !conf.handshakeComplete || expectCcs {
          stop := Some(LocalAlert(ALERT_UNEXPECTED_MESSAGE));
        } else if |data| == 0 {
          retry := true;
        } else {
          input := data;
        }
      } else if typ == TYPE_HANDSHAKE {
        if |data| == 0 || expectCcs {
          stop := Some(LocalAlert(ALERT_UNEXPECTED_MESSAGE));
        } else {
          hand := hand + data;
        }
      } else {
        stop := Some(LocalAlert(ALERT_UNEXPECTED_MESSAGE));
      }
    }

    /** One turn of readRecordOrCCS: either the call is decided or the record is to be ignored. */
    method TakeRecord(open: Opener, expectCcs: bool) returns (retry: bool, out: Outcome)
      requires Sound(State())
      modifies this
      ensures match Take(open, old(State()), expectCcs)
              case Ends(_, s, o, _) => !retry && out == o && State() == s
              case Ignores(s) => retry && State() == s
    {
      retry, out := false, Ok;
      if failed {
        return false, Fail(EarlierError);
      }
      if |input| != 0 {
        SetError(PendingInput);
        return false, Fail(PendingInput);
      }
      var got, reason := FetchRecord(open);
      if got.None? {
        SetError(reason);
        return false, Fail(reason);
      }
      var stop;
      retry, stop := DispatchRecord(got.value.0, got.value.1, expectCcs);
      if stop.Some? {
        SetError(stop.value);
        return false, Fail(stop.value);
      }
    }

    method ReadRecordOrCCS(open: Opener, expectCcs: bool) returns (out: Outcome)
      requires Sound(State())
      modifies this
      ensures out == Read(open, old(State()), expectCcs).out && State() == Read(open, old(State()), expectCcs).s
      decreases MAX_USELESS_RECORDS + 1 - retryCount, 1
    {
      var retry;
      retry, out := TakeRecord(open, expectCcs);
      if retry {
        out := RetryReadRecord(open, expectCcs);
      }
    }

    method RetryReadRecord(open: Opener, expectCcs: bool) returns (out: Outcome)
      requires Sound(State())
      modifies this
      ensures out == Reread(open, old(State()), expectCcs).out && State() == Reread(open, old(State()), expectCcs).s
      decreases MAX_USELESS_RECORDS + 1 - retryCount, 0
    {
      retryCount := retryCount + 1;
      if retryCount > MAX_USELESS_RECORDS {
        SetError(LocalAlert(ALERT_UNEXPECTED_MESSAGE));
        return Fail(TooManyIgnored);
      }
      RereadIsRead(TakerOf(open), old(State()), expectCcs);
      out := ReadRecordOrCCS(open, expectCcs);
    }

    /** The two buffering loops of readHandshake. */
    method Fill(open: Opener, n: nat) returns (ok: bool)
      requires Sound(State())
      modifies this
      ensures (State(), ok) == FillTo(open, old(State()), n)
    {
      ok := true;
      while |hand| < n
        invariant Sound(State()) && FillTo(open, State(), n) == FillTo(open, old(State()), n)
        decreases |raw|
      {
        var out := ReadRecordOrCCS(open, false);
        if out.Fail? {
          return false;
        }
      }
    }

    /** readHandshake: the message and the state after it are those of the function ReadHandshake. */
    method ReadHandshakeMessage(open: Opener, accepts: Unmarshaler) returns (m: Message)
      requires Sound(State())
      modifies this
      ensures (State(), m) == ReadHandshake(open, accepts, old(State()))
    {
      var ok := Fill(open, 4);
      if !ok {
        return NoMessage;
      }
      m := ReadMessageBody(open, accepts);
    }

    /** The part of readHandshake after the message header is there. */
    method ReadMessageBody(open: Opener, accepts: Unmarshaler) returns (m: Message)
      requires Sound(State()) && |hand| >= 4
      modifies this
      ensures (State(), m) == ReadBody(FillerOf(open), accepts, old(State()))
    {
      var n := Uint(hand[1..4]);
      if n > MAX_HANDSHAKE {
        SetError(LocalAlert(ALERT_INTERNAL_ERROR));
        return NoMessage;
      }
      var ok := Fill(open, 4 + n);
      BodyUnfolds(FillerOf(open), accepts, old(State()), n, State(), ok);
      if !ok {
        return NoMessage;
      }
      m := TakeBuffered(accepts, 4 + n);
    }

    /** handlePostHandshakeMessage, whose effect on the connection is a parameter. */
    method HandlePost(post: PostHandler) returns (out: Outcome)
      modifies this
      ensures (State(), out) == post(old(State()))
    {
      var (t, result) := post(State());
      out := result;
      conf, half, next, cipherSpecs, failed := t.conf, t.half, t.next, t.cipherSpecs, t.failed;
      input, hand, retryCount, raw, alerts := t.input, t.hand, t.retryCount, t.raw, t.alerts;
    }

    /** The inner loop of Read. */
    method HandlePosts(post: PostHandler) returns (out: Outcome)
      requires Sound(State())
      modifies this
      ensures (State(), out) == HandleAll(post, old(State()))
    {
      out := Ok;
      while |hand| > 0
        invariant Sound(State()) && HandleAll(post, State()) == HandleAll(post, old(State()))
        decreases |raw|, |hand|
      {
        assert HandlesWell(post, State());
        out := HandlePost(post);
        if out.Fail? {
          return;
        }
      }
      out := Ok;
    }

    /** The outer loop of Read. */
    method AwaitInput(open: Opener, post: PostHandler) returns (out: Outcome)
      requires Sound(State())
      modifies this
      ensures (State(), out) == Await(StepOf(open), post, old(State()))
    {
      out := Ok;
      while |input| == 0
        invariant Sound(State()) && Await(StepOf(open), post, State()) == Await(StepOf(open), post, old(State()))
        decreases |raw|
      {
        out := ReadRecordOrCCS(open, false);
        if out.Fail? {
          return;
        }
        out := HandlePosts(post);
        if out.Fail? {
          return;
        }
      }
      out := Ok;
    }

    /** Read, after the handshake, into a buffer of n octets. */
    method ReadApplicationData(open: Opener, post: PostHandler, n: nat) returns (b: bytes, out: Outcome)
      requires Sound(State())
      modifies this
      ensures (State(), b, out) == ReadData(StepOf(open), post, old(State()), n)
    {
      if n == 0 {
        return [], Ok;
      }
      out := AwaitInput(open, post);
      if out.Fail? {
        return [], out;
      }
      b, out := HandOutInput(open, n);
    }

    method HandOutInput(open: Opener, n: nat) returns (b: bytes, out: Outcome)
      requires Sound(State())
      modifies this
      ensures (State(), b, out) == HandOut(StepOf(open), old(State()), n)
    {
      var k := Min(n, |input|);
      b, input, out := input[..k], input[k..], Ok;
      if |input| == 0 && |raw| > 0 && raw[0] == TYPE_ALERT {
        out := ReadRecordOrCCS(open, false);
      }
    }

    /** The end of readHandshake: takes n buffered octets and lets the unmarshaler judge them. */
    method TakeBuffered(accepts: Unmarshaler, n: nat) returns (m: Message)
      requires 0 < n <= |hand|
      modifies this
      ensures (State(), m) == TakeMessage(accepts, old(State()), n)
    {
      var data := hand[..n];
      hand := hand[n..];
      if !KnownType(data[0]) || !accepts(data) {
        SetError(LocalAlert(ALERT_UNEXPECTED_MESSAGE));
        return NoMessage;
      }
      return Message(data);
    }
  }

  /** Once the buffering loop is done, the rest of readHandshake is to take the message. */
  lemma BodyUnfolds(fill: Filler, accepts: Unmarshaler, s: Reader, n: nat, t: Reader, ok: bool)
    requires Sound(s) && |s.hand| >= 4 && n == Uint(s.hand[1..4]) <= MAX_HANDSHAKE && fill(s, 4 + n) == (t, ok)
    ensures if ok then |t.hand| >= 4 + n && ReadBody(fill, accepts, s) == TakeMessage(accepts, t, 4 + n)
            else ReadBody(fill, accepts, s) == (t, NoMessage)
  {
    assert FillsWell(fill, s, 4 + n);
  }

  /** Below the limit a retry is a read with the count advanced. */
  lemma RereadIsRead(take: Taker, s: Reader, expectCcs: bool)
    requires Sound(s) && s.retryCount < MAX_USELESS_RECORDS
    ensures RereadBy(take, s, expectCcs) == ReadBy(take, s.(retryCount := s.retryCount + 1), expectCcs)
  {
  }
}
