/** conn.go: Conn.Read, which hands application data to its caller in pieces of whatever size is asked for. */
module DataReader {
  import opened Bytes
  import opened RecordLayer
  import opened RoundTrip
  import opened RecordReader
  import opened Reassembly
  import opened RecordWriter
  import EndToEnd

  ghost predicate StepsWell(read: Reader -> (Reader, Outcome), s: Reader) {
    Sound(s) && read(s).1.Ok? ==> Sound(read(s).0) && |read(s).0.raw| < |s.raw|
  }

  /** readRecord as Conn.Read sees it. */
  type RecordStep = read: Reader -> (Reader, Outcome) | forall s :: StepsWell(read, s)
    ghost witness (s: Reader) => (s, Fail(ShortRead))

  function RawStep(open: Opener): Reader -> (Reader, Outcome) {
    (s: Reader) => if Sound(s) then (Read(open, s, false).s, Read(open, s, false).out) else (s, Fail(ShortRead))
  }

  function StepOf(open: Opener): RecordStep {
    assert forall s :: StepsWell(RawStep(open), s);
    RawStep(open)
  }

  ghost predicate HandlesWell(post: Reader -> (Reader, Outcome), s: Reader) {
    Sound(s) && s.hand != [] && post(s).1.Ok? ==>
      var t := post(s).0;
      Sound(t) && (|t.raw| < |s.raw| || (|t.raw| == |s.raw| && |t.hand| < |s.hand|))
  }

  /** handlePostHandshakeMessage: it takes a whole message, reading more records if it must. */
  type PostHandler = post: Reader -> (Reader, Outcome) | forall s :: HandlesWell(post, s)
    ghost witness (s: Reader) => (s, Fail(ShortRead))

  /** The inner loop: post-handshake messages until the handshake buffer is empty. */
  function HandleAll(post: PostHandler, s: Reader): (r: (Reader, Outcome))
    requires Sound(s)
    ensures r.1.Ok? ==> Sound(r.0) && r.0.hand == [] && |r.0.raw| <= |s.raw|
    decreases |s.raw|, |s.hand|
  {
    if s.hand == [] then (s, Ok)
    else
      assert HandlesWell(post, s);
      var (t, out) := post(s);
      if out.Fail? then (t, out) else HandleAll(post, t)
  }

  /** The outer loop: records until there is application data. */
  function Await(read: RecordStep, post: PostHandler, s: Reader): (r: (Reader, Outcome))
    requires Sound(s)
    ensures r.1.Ok? ==> Sound(r.0) && r.0.input != []
    decreases |s.raw|
  {
    if s.input != [] then (s, Ok)
    else
      assert StepsWell(read, s);
      var (s1, out1) := read(s);
      if out1.Fail? then (s1, out1)
      else
        var (s2, out2) := HandleAll(post, s1);
        if out2.Fail? then (s2, out2) else Await(read, post, s2)
  }

  function Min(a: nat, b: nat): nat {
    if a < b then a else b
  }

  /** The end of Read: the octets handed out, and a look at an alert that is already waiting. */
  function HandOut(read: RecordStep, s: Reader, n: nat): (Reader, bytes, Outcome) {
    var k := Min(n, |s.input|);
    var t := s.(input := s.input[k..]);
    if t.input == [] && t.raw != [] && t.raw[0] == TYPE_ALERT then (read(t).0, s.input[..k], read(t).1)
    else (t, s.input[..k], Ok)
  }

  /** Read with a buffer of n octets, once the handshake is complete. */
  function ReadData(read: RecordStep, post: PostHandler, s: Reader, n: nat): (Reader, bytes, Outcome)
    requires Sound(s)
  {
    if n == 0 then (s, [], Ok)
    else
      var (s1, out) := Await(read, post, s);
      if out.Fail? then (s1, [], out) else HandOut(read, s1, n)
  }

  /** A peer's application data records as the reader meets them; no alert waits behind them. */
  ghost predicate Carries(open: Opener, w: Wire) {
    && |w.states| == |w.fs| + 1 && |w.records| == |w.fs| && w.conf.handshakeComplete
    && (w.tail == [] || w.tail[0] != TYPE_ALERT)
    && forall i :: 0 <= i < |w.fs| ==> CarriesRecord(open, w, i)
  }

  ghost predicate CarriesRecord(open: Opener, w: Wire, i: nat)
    requires i < |w.fs| == |w.records| && |w.states| == |w.fs| + 1
  {
    && FeedsRecord(open, w.conf, w.states[i], w.records[i], w.states[i + 1], w.fs[i], TYPE_APPLICATION_DATA)
    && w.records[i][0] != TYPE_ALERT && !w.states[i + 1].cipher.NullCipher?
  }

  /** The reader has opened k of the records, and `left` is the data its caller has not had. */
  ghost predicate Holds(s: Reader, w: Wire, k: nat, left: bytes) {
    && |w.states| == |w.fs| + 1 && |w.records| == |w.fs| && k <= |w.fs|
    && Sound(s) && s.conf == w.conf && !s.failed && s.hand == [] && s.half == w.states[k]
    && s.raw == From(w.records, k) + w.tail && s.input + From(w.fs, k) == left
  }

  /** Reading an application data record makes its payload the input and changes nothing else. */
  lemma ReadOneDataRecord(open: Opener, s: Reader, record: bytes, next: Half, payload: bytes, rest: bytes)
    requires Ready(s, s.conf) && FeedsRecord(open, s.conf, s.half, record, next, payload, TYPE_APPLICATION_DATA)
    requires s.conf.handshakeComplete && s.hand == [] && !next.cipher.NullCipher? && s.raw == record + rest
    ensures var r := Read(open, s, false);
            r.out.Ok? && r.s == s.(half := next, raw := rest, retryCount := 0, input := payload)
  {
    FetchOneRecord(open, s, record, next, payload, TYPE_APPLICATION_DATA, rest);
    var s1 := s.(half := next, raw := rest);
    assert Dispatch(s1, TYPE_APPLICATION_DATA, payload, false) == Done(s1.(retryCount := 0, input := payload));
  }

  /** One record is enough when it brings application data. */
  lemma AwaitsOne(read: RecordStep, post: PostHandler, s: Reader, t: Reader)
    requires Sound(s) && Sound(t) && s.input == [] && read(s) == (t, Ok) && t.input != [] && t.hand == []
    ensures Await(read, post, s) == (t, Ok)
  {
    assert StepsWell(read, s);
    assert HandleAll(post, t) == (t, Ok);
  }

  /** The reader with the next record opened. */
  function Opening(s: Reader, w: Wire, k: nat): Reader
    requires k < |w.fs| == |w.records| && |w.states| == |w.fs| + 1
  {
    s.(half := w.states[k + 1], raw := From(w.records, k + 1) + w.tail, retryCount := 0, input := w.fs[k])
  }

  lemma HoldsOpened(s: Reader, w: Wire, k: nat, left: bytes)
    requires Holds(s, w, k, left) && k < |w.fs| && s.input == [] && Sound(Opening(s, w, k))
    ensures s.raw == w.records[k] + (From(w.records, k + 1) + w.tail)
    ensures Holds(Opening(s, w, k), w, k + 1, left)
  {
  }

  lemma OpensNext(open: Opener, s: Reader, w: Wire, k: nat, left: bytes)
    requires Carries(open, w) && Holds(s, w, k, left) && k < |w.fs| && s.input == []
    ensures Sound(Opening(s, w, k)) && w.fs[k] != []
    ensures Read(open, s, false).out.Ok? && Read(open, s, false).s == Opening(s, w, k)
  {
    assert CarriesRecord(open, w, k);
    assert Sound(Opening(s, w, k));
    HoldsOpened(s, w, k, left);
    ReadOneDataRecord(open, s, w.records[k], w.states[k + 1], w.fs[k], From(w.records, k + 1) + w.tail);
  }

  lemma AwaitsInput(open: Opener, post: PostHandler, s: Reader, w: Wire, k: nat, left: bytes) returns (t: Reader, k': nat)
    requires Carries(open, w) && Holds(s, w, k, left) && left != []
    ensures Await(StepOf(open), post, s) == (t, Ok) && t.input != [] && Holds(t, w, k', left)
  {
    if s.input == [] {
      StepsNext(open, s, w, k, left);
    }
    t, k' := AwaitsBy(StepOf(open), post, s, w, k, left);
  }

  lemma StepsNext(open: Opener, s: Reader, w: Wire, k: nat, left: bytes)
    requires Carries(open, w) && Holds(s, w, k, left) && left != [] && s.input == []
    ensures k < |w.fs| && Sound(Opening(s, w, k)) && w.fs[k] != [] && StepOf(open)(s) == (Opening(s, w, k), Ok)
  {
    OpensNext(open, s, w, k, left);
  }

  lemma AwaitsBy(read: RecordStep, post: PostHandler, s: Reader, w: Wire, k: nat, left: bytes) returns (t: Reader, k': nat)
    requires Holds(s, w, k, left)
    requires s.input == [] ==> k < |w.fs| && Sound(Opening(s, w, k)) && w.fs[k] != [] && read(s) == (Opening(s, w, k), Ok)
    ensures Await(read, post, s) == (t, Ok) && t.input != [] && Holds(t, w, k', left)
  {
    if s.input != [] {
      return s, k;
    }
    HoldsOpened(s, w, k, left);
    t, k' := Opening(s, w, k), k + 1;
    AwaitsOne(read, post, s, t);
  }

  lemma NoAlertAhead(open: Opener, w: Wire, k: nat)
    requires Carries(open, w) && k <= |w.fs|
    ensures var raw := From(w.records, k) + w.tail; raw == [] || raw[0] != TYPE_ALERT
  {
    if k < |w.fs| {
      assert CarriesRecord(open, w, k);
    }
  }

  /** Read as a step from one state of the reader to the next. */
  type Call = (Reader, nat) -> (Reader, bytes, Outcome)

  function CallOf(read: RecordStep, post: PostHandler): Call {
    (s: Reader, n: nat) => if Sound(s) then ReadData(read, post, s, n) else (s, [], Fail(ShortRead))
  }

  predicate ReadsTo(call: Call, n: nat, s: Reader, t: Reader, b: bytes) {
    call(s, n) == (t, b, Ok)
  }

  /** A call with room for n octets gets some of what is left, from its front, and leaves exactly the rest. */
  lemma ReadsSome(open: Opener, post: PostHandler, s: Reader, w: Wire, k: nat, left: bytes, n: nat)
    returns (t: Reader, b: bytes, k': nat)
    requires Carries(open, w) && Holds(s, w, k, left) && left != [] && n > 0
    ensures ReadsTo(CallOf(StepOf(open), post), n, s, t, b)
    ensures 0 < |b| <= n && |b| <= |left| && b == left[..|b|] && Holds(t, w, k', left[|b|..])
  {
    var s1;
    s1, k' := AwaitsInput(open, post, s, w, k, left);
    b := s1.input[..Min(n, |s1.input|)];
    t := s1.(input := s1.input[|b|..]);
    NoAlertAhead(open, w, k');
    HoldsRest(s1, w, k', left, |b|);
    ReadsInput(StepOf(open), post, s, s1, n);
  }

  lemma HoldsRest(s: Reader, w: Wire, k: nat, left: bytes, n: nat)
    requires Holds(s, w, k, left) && n <= |s.input|
    ensures n <= |left| && s.input[..n] == left[..n] && Holds(s.(input := s.input[n..]), w, k, left[n..])
  {
    assert left[n..] == s.input[n..] + From(w.fs, k);
  }

  lemma ReadsInput(read: RecordStep, post: PostHandler, s: Reader, s1: Reader, n: nat)
    requires Sound(s) && n > 0 && Await(read, post, s) == (s1, Ok) && (s1.raw == [] || s1.raw[0] != TYPE_ALERT)
    ensures var k := Min(n, |s1.input|); ReadsTo(CallOf(read, post), n, s, s1.(input := s1.input[k..]), s1.input[..k])
  {
  }

  /** Successive calls of Read with the given sizes, passing through the states ss and returning bs. */
  ghost predicate ReadsInOrder(call: Call, sizes: nat -> nat, from: nat, ss: seq<Reader>, bs: seq<bytes>) {
    |ss| == |bs| + 1 && forall i :: 0 <= i < |bs| ==> ReadsTo(call, sizes(from + i), ss[i], ss[i + 1], bs[i])
  }

  lemma ReadsOneMore(call: Call, sizes: nat -> nat, from: nat, s: Reader, b: bytes, ss: seq<Reader>, bs: seq<bytes>)
    returns (ss': seq<Reader>, bs': seq<bytes>)
    requires ReadsInOrder(call, sizes, from + 1, ss, bs) && ReadsTo(call, sizes(from), s, ss[0], b)
    ensures ReadsInOrder(call, sizes, from, ss', bs') && ss'[0] == s && ss'[|bs'|] == ss[|bs|] && Concat(bs') == b + Concat(bs)
  {
    ss', bs' := [s] + ss, [b] + bs;
    forall i | 0 <= i < |bs'|
      ensures ReadsTo(call, sizes(from + i), ss'[i], ss'[i + 1], bs'[i])
    {
      if i > 0 {
        assert ReadsTo(call, sizes(from + 1 + (i - 1)), ss[i - 1], ss[i - 1 + 1], bs[i - 1]);
      }
    }
    assert bs'[1..] == bs;
  }

  /** A call gives out some of what is left, from its front, and leaves the rest. */
  ghost predicate Serves(call: Call, w: Wire, s: Reader, left: bytes, n: nat) {
    var (t, b, out) := call(s, n);
    out.Ok? && 0 < |b| <= n && b <= left && exists k :: Holds(t, w, k, left[|b|..])
  }

  ghost predicate ServesAlways(call: Call, w: Wire) {
    forall s, k, left, n: nat :: Holds(s, w, k, left) && left != [] && n > 0 ==> Serves(call, w, s, left, n)
  }

  lemma ReadServes(open: Opener, post: PostHandler, w: Wire)
    requires Carries(open, w)
    ensures ServesAlways(CallOf(StepOf(open), post), w)
  {
    forall s, k, left, n: nat | Holds(s, w, k, left) && left != [] && n > 0
      ensures Serves(CallOf(StepOf(open), post), w, s, left, n)
    {
      var t, b, k' := ReadsSome(open, post, s, w, k, left, n);
    }
  }

  /** Reading on until everything is handed out. */
  lemma {:induction false} ReadToTheEnd(call: Call, s: Reader, w: Wire, k: nat, left: bytes, sizes: nat -> nat, from: nat)
    returns (ss: seq<Reader>, bs: seq<bytes>)
    requires ServesAlways(call, w) && Holds(s, w, k, left) && forall i :: sizes(i) > 0
    ensures ReadsInOrder(call, sizes, from, ss, bs) && ss[0] == s
    ensures Concat(bs) == left && exists end :: Holds(ss[|bs|], w, end, [])
    decreases |left|
  {
    if left == [] {
      return [s], [];
    }
    assert Serves(call, w, s, left, sizes(from));
    var (t, b, _) := call(s, sizes(from));
    var k' :| Holds(t, w, k', left[|b|..]);
    assert b + left[|b|..] == left;
    ss, bs := ReadToTheEnd(call, t, w, k', left[|b|..], sizes, from + 1);
    ss, bs := ReadsOneMore(call, sizes, from, s, b, ss, bs);
  }

  lemma AllOpened(open: Opener, s: Reader, w: Wire, k: nat)
    requires Carries(open, w) && Holds(s, w, k, [])
    ensures k == |w.fs|
  {
    assert k < |w.fs| ==> CarriesRecord(open, w, k);
  }

  /** A run of sealed application data fragments, seen from a reader in the sender's first state. */
  lemma SealedRunCarries(p: Primitives, vers: nat, states: seq<Half>, fs: seq<Fragment>, records: seq<bytes>)
    returns (w: Wire)
    requires Lawful(p) && SealsTo(p, WireVersion(vers), states, fs, records) && !states[0].cipher.NullCipher?
    requires VERSION_TLS10 <= vers <= VERSION_TLS13 && states[0].version == vers
    requires states[0].seqno + |fs| < SEQ_LIMIT
    requires forall i :: 0 <= i < |fs| ==> fs[i].typ == TYPE_APPLICATION_DATA && 1 <= |fs[i].payload| <= MAX_PLAINTEXT
    ensures w == Wire(Progress(vers, true, true), states, records, Payloads(fs), [])
    ensures Carries(OpenerOf(p), w)
  {
    w := Wire(Progress(vers, true, true), states, records, Payloads(fs), []);
    forall i | 0 <= i < |fs|
      ensures CarriesRecord(OpenerOf(p), w, i)
    {
      EndToEnd.SealedRecordFeeds(p, vers, true, states, fs, records, TYPE_APPLICATION_DATA, i);
    }
  }

  /**
   * Application data written through the fragmenting loop under installed keys, whatever record sizes it
   * chose, is read back by Conn.Read with buffers of any sizes: the pieces handed out, put together, are the
   * data written, and the reader ends with nothing pending, at the end of the sender's records and in the
   * sender's final cipher state.
   */
  lemma WrittenDataIsRead(p: Primitives, post: PostHandler, vers: nat, s: Reader, data: bytes, sizes: nat -> nat,
                          states: seq<Half>, fs: seq<Fragment>, records: seq<bytes>)
    returns (ss: seq<Reader>, bs: seq<bytes>)
    requires Lawful(p) && Written(p, WireVersion(vers), TYPE_APPLICATION_DATA, data, |data|, states, fs, records)
    requires !states[0].cipher.NullCipher? && states[0].seqno + |fs| < SEQ_LIMIT
    requires VERSION_TLS10 <= vers <= VERSION_TLS13 && states[0].version == vers
    requires Ready(s, Progress(vers, true, true)) && s.hand == [] && s.half == states[0] && s.raw == Concat(records)
    requires forall i :: sizes(i) > 0
    ensures ReadsInOrder(CallOf(StepOf(OpenerOf(p)), post), sizes, 0, ss, bs) && ss[0] == s && Concat(bs) == data
    ensures var t := ss[|bs|]; t.input == [] && t.hand == [] && t.raw == [] && t.half == states[|fs|]
  {
    var w := SealedRunCarries(p, vers, states, fs, records);
    EndToEnd.FromIsConcat(records, 0);
    EndToEnd.FromIsConcat(w.fs, 0);
    assert records[0..] == records && w.fs[0..] == w.fs && data[..|data|] == data;
    assert [] + From(w.fs, 0) == data && From(w.records, 0) + [] == Concat(records);
    ReadServes(OpenerOf(p), post, w);
    ss, bs := ReadToTheEnd(CallOf(StepOf(OpenerOf(p)), post), s, w, 0, data, sizes, 0);
    var k :| Holds(ss[|bs|], w, k, []);
    AllOpened(OpenerOf(p), ss[|bs|], w, k);
  }
}
