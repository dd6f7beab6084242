/** conn.go: readHandshake, which glues handshake messages back together from record contents. */
module Reassembly {
  import opened Bytes
  import opened RecordLayer
  import opened RoundTrip
  import opened RecordReader

  const MAX_HANDSHAKE := 65536

  /** Message types readHandshake knows. */
  predicate KnownType(t: byte) {
    t in [0, 1, 2, 4, 5, 8, 11, 12, 13, 14, 15, 16, 20, 22, 24]
  }

  /** Whether the unmarshaler for this message, which is not modelled here, accepts it. */
  type Unmarshaler = bytes -> bool

  datatype Message = Message(data: bytes) | NoMessage

  /** Reads records until at least n octets of handshake data are buffered. */
  function FillTo(open: Opener, s: Reader, n: nat): (r: (Reader, bool))
    requires Sound(s)
    ensures Sound(r.0) || !r.1
    ensures r.1 ==> |r.0.hand| >= n
    decreases |s.raw|
  {
    if |s.hand| >= n then (s, true)
    else
      var r := Read(open, s, false);
      if r.out.Fail? then (r.s, false) else FillTo(open, r.s, n)
  }

  /** Filling only ever adds to the buffer. */
  lemma {:induction false} BufferGrows(open: Opener, s: Reader, n: nat)
    requires Sound(s) && FillTo(open, s, n).1
    ensures s.hand <= FillTo(open, s, n).0.hand
    decreases |s.raw|
  {
    if |s.hand| < n {
      ReadMakesProgress(open, s, false);
      BufferGrows(open, Read(open, s, false).s, n);
    }
  }

  /** All that readHandshake relies on in its buffering loops. */
  ghost predicate FillsWell(fill: (Reader, nat) -> (Reader, bool), s: Reader, n: nat) {
    Sound(s) ==>
      && (fill(s, n).1 ==> Sound(fill(s, n).0) && |fill(s, n).0.hand| >= n && s.hand <= fill(s, n).0.hand)
      && (|s.hand| >= n ==> fill(s, n) == (s, true))
  }

  type Filler = fill: (Reader, nat) -> (Reader, bool) | forall s, n :: FillsWell(fill, s, n)
    ghost witness (s: Reader, n: nat) => (s, |s.hand| >= n)

  function RawFiller(open: Opener): (Reader, nat) -> (Reader, bool) {
    (s: Reader, n: nat) => if Sound(s) then FillTo(open, s, n) else (s, false)
  }

  lemma FillerFillsWell(open: Opener, s: Reader, n: nat)
    ensures FillsWell(RawFiller(open), s, n)
  {
    if Sound(s) && FillTo(open, s, n).1 {
      BufferGrows(open, s, n);
    }
  }

  /** The loops as the rest of readHandshake sees them. */
  function FillerOf(open: Opener): Filler {
    assert forall s, n :: FillsWell(RawFiller(open), s, n) by {
      forall s, n
        ensures FillsWell(RawFiller(open), s, n)
      {
        FillerFillsWell(open, s, n);
      }
    }
    RawFiller(open)
  }

  /** readHandshake: a returned message is whole, known, accepted and within the limit. */
  function ReadHandshake(open: Opener, accepts: Unmarshaler, s: Reader): (r: (Reader, Message))
    requires Sound(s)
    ensures r.1.Message? ==> Sound(r.0) && Framed(accepts, r.1.data)
    ensures |s.hand| >= 4 && Uint(s.hand[1..4]) > MAX_HANDSHAKE ==> r.1.NoMessage? && r.0.failed && r.0.hand == s.hand
  {
    ReadMessage(FillerOf(open), accepts, s)
  }

  function ReadMessage(fill: Filler, accepts: Unmarshaler, s: Reader): (r: (Reader, Message))
    requires Sound(s)
    ensures r.1.Message? ==> Sound(r.0) && Framed(accepts, r.1.data)
    ensures |s.hand| >= 4 && Uint(s.hand[1..4]) > MAX_HANDSHAKE ==> r.1.NoMessage? && r.0.failed && r.0.hand == s.hand
  {
    assert FillsWell(fill, s, 4);
    var (s1, ok) := fill(s, 4);
    if !ok then (s1, NoMessage) else ReadBody(fill, accepts, s1)
  }

  /** The part of readHandshake after the message header is there. */
  function ReadBody(fill: Filler, accepts: Unmarshaler, s: Reader): (r: (Reader, Message))
    requires Sound(s) && |s.hand| >= 4
    ensures r.1.Message? ==> Sound(r.0) && Framed(accepts, r.1.data)
    ensures Uint(s.hand[1..4]) > MAX_HANDSHAKE ==> r.1.NoMessage? && r.0.failed && r.0.hand == s.hand
  {
    var n := Uint(s.hand[1..4]);
    if n > MAX_HANDSHAKE then (Failed(s, LocalAlert(ALERT_INTERNAL_ERROR)), NoMessage)
    else
      assert FillsWell(fill, s, 4 + n);
      var (s1, ok) := fill(s, 4 + n);
      if !ok then (s1, NoMessage)
      else
        SameHeader(s.hand, s1.hand, 4 + n);
        TakeMessage(accepts, s1, 4 + n)
  }

  lemma SameHeader(hand: bytes, more: bytes, n: nat)
    requires 4 <= |hand| && hand <= more && 4 <= n <= |more|
    ensures |more[..n]| == n && more[..n][1..4] == hand[1..4]
  {
  }

  function TakeMessage(accepts: Unmarshaler, s: Reader, n: nat): (Reader, Message)
    requires 0 < n <= |s.hand|
  {
    var data := s.hand[..n];
    var t := s.(hand := s.hand[n..]);
    if !KnownType(data[0]) || !accepts(data) then (Failed(t, LocalAlert(ALERT_UNEXPECTED_MESSAGE)), NoMessage)
    else (t, Message(data))
  }

  /** A well-framed message: its length field counts its body and is within the limit. */
  predicate Framed(accepts: Unmarshaler, m: bytes) {
    |m| >= 4 && Uint(m[1..4]) == |m| - 4 <= MAX_HANDSHAKE && KnownType(m[0]) && accepts(m)
  }

  /** A handshake record the reader's header checks let through. */
  predicate Passes(c: Progress, record: bytes) {
    && |record| >= RECORD_HEADER_LEN
    && Uint(record[3..5]) == |record| - RECORD_HEADER_LEN
    && |record| - RECORD_HEADER_LEN <= (if c.vers == VERSION_TLS13 then MAX_CIPHERTEXT_TLS13 else MAX_CIPHERTEXT)
    && (!c.handshakeComplete ==> record[0] != 0x80)
    && (c.haveVers && c.vers != VERSION_TLS13 ==> Uint(record[1..3]) == c.vers)
    && (!c.haveVers ==> record[0] == TYPE_HANDSHAKE && Uint(record[1..3]) < 0x1000)
  }

  /**
   * A peer's handshake records as the reader meets them: each record, opened in the reader's state
   * of that moment, is a non-empty handshake fragment. Anything may follow in `tail`.
   */
  datatype Wire = Wire(conf: Progress, states: seq<Half>, records: seq<bytes>, fs: seq<bytes>, tail: bytes)

  ghost predicate Feeds(open: Opener, w: Wire) {
    && |w.states| == |w.fs| + 1 && |w.records| == |w.fs|
    && forall i :: 0 <= i < |w.fs| ==> FeedsRecord(open, w.conf, w.states[i], w.records[i], w.states[i + 1], w.fs[i], TYPE_HANDSHAKE)
  }

  ghost predicate FeedsRecord(open: Opener, c: Progress, h: Half, record: bytes, next: Half, payload: bytes, typ: byte) {
    && Passes(c, record) && 0 < |payload| <= MAX_PLAINTEXT
    && open(h, record) == Opened(next, payload, typ)
  }

  function From(parts: seq<bytes>, k: nat): bytes
    requires k <= |parts|
    decreases |parts| - k
  {
    if k == |parts| then [] else parts[k] + From(parts, k + 1)
  }

  /** The reader has taken k of the records, and `left` is what is still to be returned. */
  ghost predicate At(s: Reader, w: Wire, k: nat, left: bytes) {
    && |w.states| == |w.fs| + 1 && |w.records| == |w.fs| && k <= |w.fs|
    && Ready(s, w.conf) && s.half == w.states[k]
    && s.raw == From(w.records, k) + w.tail
    && s.hand + From(w.fs, k) == left
  }

  predicate Ready(s: Reader, c: Progress) {
    Sound(s) && s.conf == c && !s.failed && s.input == []
  }

  lemma FetchOneRecord(open: Opener, s: Reader, record: bytes, next: Half, payload: bytes, typ: byte, rest: bytes)
    requires Ready(s, s.conf) && FeedsRecord(open, s.conf, s.half, record, next, payload, typ)
    requires s.raw == record + rest
    ensures Fetch(open, s) == Got(s.(half := next, raw := rest), typ, payload)
  {
    assert s.raw[..|record|] == record && s.raw[|record|..] == rest;
    assert s.raw[1..3] == record[1..3] && s.raw[3..5] == record[3..5];
  }

  /** Reading a handshake record appends its payload and nothing else. */
  lemma ReadOneRecord(open: Opener, s: Reader, record: bytes, next: Half, payload: bytes, rest: bytes)
    requires Ready(s, s.conf) && FeedsRecord(open, s.conf, s.half, record, next, payload, TYPE_HANDSHAKE)
    requires s.raw == record + rest
    ensures var r := Read(open, s, false);
            r.out.Ok? && r.s == s.(half := next, raw := rest, retryCount := 0, hand := s.hand + payload)
  {
    FetchOneRecord(open, s, record, next, payload, TYPE_HANDSHAKE, rest);
    var s1 := s.(half := next, raw := rest);
    assert Dispatch(s1, TYPE_HANDSHAKE, payload, false) == Done(s1.(retryCount := 0, hand := s.hand + payload));
  }

  /** The reader one record further along the wire. */
  function Step(s: Reader, w: Wire, k: nat): Reader
    requires k < |w.fs| == |w.records| && |w.states| == |w.fs| + 1
  {
    s.(half := w.states[k + 1], raw := From(w.records, k + 1) + w.tail, retryCount := 0, hand := s.hand + w.fs[k])
  }

  lemma StepAlong(s: Reader, w: Wire, k: nat, left: bytes)
    requires At(s, w, k, left) && k < |w.fs| && Sound(Step(s, w, k))
    ensures s.raw == w.records[k] + (From(w.records, k + 1) + w.tail)
    ensures At(Step(s, w, k), w, k + 1, left)
  {
    assert s.hand + w.fs[k] + From(w.fs, k + 1) == s.hand + From(w.fs, k);
  }

  lemma SoundStep(open: Opener, s: Reader, w: Wire, k: nat)
    requires Feeds(open, w) && k < |w.fs| && Ready(s, w.conf) && s.half == w.states[k]
    ensures Sound(Step(s, w, k))
  {
    assert FeedsRecord(open, w.conf, w.states[k], w.records[k], w.states[k + 1], w.fs[k], TYPE_HANDSHAKE);
  }

  /** Taking the next record moves one step along the wire. */
  lemma Advance(open: Opener, s: Reader, w: Wire, k: nat, left: bytes)
    requires Feeds(open, w) && At(s, w, k, left) && k < |w.fs|
    ensures Read(open, s, false).out.Ok? && Read(open, s, false).s == Step(s, w, k)
    ensures At(Step(s, w, k), w, k + 1, left)
  {
    SoundStep(open, s, w, k);
    StepAlong(s, w, k, left);
    assert FeedsRecord(open, w.conf, w.states[k], w.records[k], w.states[k + 1], w.fs[k], TYPE_HANDSHAKE);
    ReadOneRecord(open, s, w.records[k], w.states[k + 1], w.fs[k], From(w.records, k + 1) + w.tail);
  }

  lemma {:induction false} FillReaches(open: Opener, s: Reader, w: Wire, k: nat, left: bytes, n: nat)
    returns (t: Reader, k': nat)
    requires Feeds(open, w) && At(s, w, k, left) && n <= |left|
    ensures FillTo(open, s, n) == (t, true) && |t.hand| >= n && At(t, w, k', left)
    decreases |w.fs| - k
  {
    if |s.hand| >= n {
      return s, k;
    }
    Advance(open, s, w, k, left);
    t, k' := FillReaches(open, Step(s, w, k), w, k + 1, left, n);
  }

  lemma HeadOf(hand: bytes, more: bytes, m: bytes, left: bytes)
    requires hand + more == m + left && |m| >= 4
    ensures |hand| >= 4 ==> hand[1..4] == m[1..4]
    ensures |hand| >= |m| ==> hand[..|m|] == m && hand[|m|..] + more == left
  {
    var whole := m + left;
    if |hand| >= 4 {
      assert hand[1..4] == whole[1..4];
    }
    if |hand| >= |m| {
      assert hand[..|m|] == whole[..|m|];
      assert hand[|m|..] + more == whole[|m|..];
    }
  }

  /** readHandshake as a step from one state of the reader to the next. */
  type Handshaker = Reader -> (Reader, Message)

  function HandshakerOf(open: Opener, accepts: Unmarshaler): Handshaker {
    (s: Reader) => if Sound(s) then ReadHandshake(open, accepts, s) else (s, NoMessage)
  }

  predicate Returns(read: Handshaker, s: Reader, t: Reader, m: bytes) {
    read(s) == (t, Message(m))
  }

  /** One message at the head of what is left is returned whole, wherever the record boundaries fall. */
  lemma ReadOneMessage(open: Opener, accepts: Unmarshaler, s: Reader, w: Wire, k: nat, m: bytes, left: bytes)
    returns (t: Reader, k': nat)
    requires Feeds(open, w) && At(s, w, k, m + left) && Framed(accepts, m)
    ensures Returns(HandshakerOf(open, accepts), s, t, m) && At(t, w, k', left)
  {
    var s1, k1 := FillReaches(open, s, w, k, m + left, 4);
    TakeHead(s1, w, k1, m, left);
    var s2, k2 := FillReaches(open, s1, w, k1, m + left, |m|);
    TakeHead(s2, w, k2, m, left);
    HandshakeFrom(open, accepts, s, s1, s2, m);
    t, k' := s2.(hand := s2.hand[|m|..]), k2;
  }

  /** A buffer holding the start, or all, of the next message. */
  lemma TakeHead(s: Reader, w: Wire, k: nat, m: bytes, left: bytes)
    requires At(s, w, k, m + left) && |m| >= 4 && |s.hand| >= 4
    ensures s.hand[1..4] == m[1..4]
    ensures |s.hand| >= |m| ==> s.hand[..|m|] == m && At(s.(hand := s.hand[|m|..]), w, k, left)
  {
    HeadOf(s.hand, From(w.fs, k), m, left);
  }

  lemma BodyFrom(fill: Filler, accepts: Unmarshaler, s: Reader, t: Reader, m: bytes)
    requires Sound(s) && |s.hand| >= 4 && |m| >= 4 && Uint(s.hand[1..4]) == |m| - 4 <= MAX_HANDSHAKE
    requires fill(s, |m|) == (t, true) && |t.hand| >= |m| && t.hand[..|m|] == m && KnownType(m[0]) && accepts(m)
    ensures ReadBody(fill, accepts, s) == (t.(hand := t.hand[|m|..]), Message(m))
  {
  }

  lemma MessageFrom(fill: Filler, accepts: Unmarshaler, s: Reader, s1: Reader, s2: Reader, m: bytes)
    requires Sound(s) && Sound(s1) && Framed(accepts, m)
    requires fill(s, 4) == (s1, true) && |s1.hand| >= 4 && s1.hand[1..4] == m[1..4]
    requires fill(s1, |m|) == (s2, true) && |s2.hand| >= |m| && s2.hand[..|m|] == m
    ensures ReadMessage(fill, accepts, s) == (s2.(hand := s2.hand[|m|..]), Message(m))
  {
    BodyFrom(fill, accepts, s1, s2, m);
  }

  lemma HandshakeFrom(open: Opener, accepts: Unmarshaler, s: Reader, s1: Reader, s2: Reader, m: bytes)
    requires Sound(s) && Sound(s1) && Sound(s2) && Framed(accepts, m)
    requires FillTo(open, s, 4) == (s1, true) && |s1.hand| >= 4 && s1.hand[1..4] == m[1..4]
    requires FillTo(open, s1, |m|) == (s2, true) && |s2.hand| >= |m| && s2.hand[..|m|] == m
    ensures Returns(HandshakerOf(open, accepts), s, s2.(hand := s2.hand[|m|..]), m)
  {
    MessageFrom(FillerOf(open), accepts, s, s1, s2, m);
  }

  /** Successive calls of readHandshake, passing through the states ss and returning the messages ms. */
  ghost predicate ReturnsInOrder(read: Handshaker, ss: seq<Reader>, ms: seq<bytes>) {
    |ss| == |ms| + 1 && forall i :: 0 <= i < |ms| ==> Returns(read, ss[i], ss[i + 1], ms[i])
  }

  /**
   * Handshake reassembly: however the octets of a run of messages are cut into non-empty handshake
   * records, successive reads return exactly those messages in order, and what is then buffered
   * together with what is still on the wire is exactly the unread rest.
   */
  lemma {:induction false} MessagesReassembled(open: Opener, accepts: Unmarshaler, s: Reader, w: Wire, k: nat, ms: seq<bytes>, left: bytes)
    returns (ss: seq<Reader>, k': nat)
    requires Feeds(open, w) && At(s, w, k, Concat(ms) + left)
    requires forall i :: 0 <= i < |ms| ==> Framed(accepts, ms[i])
    ensures ReturnsInOrder(HandshakerOf(open, accepts), ss, ms) && ss[0] == s && At(ss[|ms|], w, k', left)
    decreases |ms|
  {
    if ms == [] {
      assert Concat([]) + left == left;
      return [s], k;
    }
    FirstOf(ms, 0, left);
    assert ms[0..] == ms;
    var t, k1 := ReadOneMessage(open, accepts, s, w, k, ms[0], Concat(ms[1..]) + left);
    ss, k' := MessagesReassembled(open, accepts, t, w, k1, ms[1..], left);
    ReturnsOneMore(HandshakerOf(open, accepts), s, ss, ms);
    ss := [s] + ss;
  }

  lemma ReturnsOneMore(read: Handshaker, s: Reader, ss: seq<Reader>, ms: seq<bytes>)
    requires ms != [] && ReturnsInOrder(read, ss, ms[1..]) && Returns(read, s, ss[0], ms[0])
    ensures ReturnsInOrder(read, [s] + ss, ms) && ([s] + ss)[|ms|] == ss[|ms| - 1]
  {
    var all := [s] + ss;
    forall i | 0 <= i < |ms|
      ensures Returns(read, all[i], all[i + 1], ms[i])
    {
      if i > 0 {
        assert Returns(read, ss[i - 1], ss[i - 1 + 1], ms[1..][i - 1]);
      }
    }
  }

  lemma FirstOf(ms: seq<bytes>, i: nat, left: bytes)
    requires i < |ms|
    ensures Concat(ms[i..]) + left == ms[i] + (Concat(ms[i + 1..]) + left)
  {
    assert ms[i..][1..] == ms[i + 1..];
  }
}
