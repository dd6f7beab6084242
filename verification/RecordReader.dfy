/** conn.go: the recursive record reader and its limit on records that make no progress. */
module RecordReader {
  import opened Bytes
  import opened RecordLayer

  const MAX_USELESS_RECORDS := 16
  const ALERT_CLOSE_NOTIFY: byte := 0
  const ALERT_DECODE_ERROR: byte := 50
  const ALERT_PROTOCOL_VERSION: byte := 70
  const ALERT_INTERNAL_ERROR: byte := 80
  const ALERT_LEVEL_WARNING: byte := 1
  const ALERT_LEVEL_ERROR: byte := 2

  /** The reading side of a Conn. `raw` is everything the peer will ever have sent that is still unread. */
  datatype Reader = Reader(
    conf: Progress, half: Half, next: Prepared, cipherSpecs: nat,
    failed: bool, input: bytes, hand: bytes, retryCount: nat, raw: bytes, alerts: seq<byte>)

  /** What the handshake has settled so far. */
  datatype Progress = Progress(vers: nat, haveVers: bool, handshakeComplete: bool)

  /** The cipher state that the next ChangeCipherSpec will install; NullCipher when none is prepared. */
  datatype Prepared = Prepared(cipher: Cipher, mac: Option<Mac>)

  datatype Reason =
    | EarlierError | PendingInput | ShortRead | BadHeader | LocalAlert(alert: byte) | RemoteAlert(code: byte)
    | CloseNotify | TooManyIgnored | SequencePanic

  datatype Outcome = Ok | Fail(reason: Reason)

  /** The current and the prepared cipher state are ones that key installation produces. */
  predicate Sound(s: Reader) {
    && Usable(s.half)
    && (!s.next.cipher.NullCipher? && s.half.version != VERSION_TLS13 ==>
          Usable(Half(s.half.version, s.next.cipher, s.next.mac, 0)))
    && s.retryCount <= MAX_USELESS_RECORDS
  }

  function Failed(s: Reader, reason: Reason): Reader {
    match reason
    case LocalAlert(a) => s.(failed := true, alerts := s.alerts + [a])
    case _ => s.(failed := true)
  }

  /** All the reader relies on: an accepted record leaves a usable cipher state of the same version. */
  ghost predicate Steady(open: (Half, bytes) -> DecryptResult) {
    forall h, record :: Usable(h) && |record| >= RECORD_HEADER_LEN && open(h, record).Opened? ==>
      Usable(open(h, record).half) && open(h, record).half.version == h.version
  }

  /** halfConn.decrypt as the reader sees it: a function of cipher state and record. */
  type Opener = open: (Half, bytes) -> DecryptResult | Steady(open) ghost witness RefuseAll()

  function RefuseAll(): (Half, bytes) -> DecryptResult {
    (_, _) => OpenWrapped
  }

  /** The opener that decrypts with the given primitives. */
  function OpenerOf(p: Primitives): Opener {
    OpenerIsSteady(p);
    RawOpener(p)
  }

  function RawOpener(p: Primitives): (Half, bytes) -> DecryptResult {
    (h, record) => if Usable(h) && |record| >= RECORD_HEADER_LEN then Decrypt(p, h, record) else OpenWrapped
  }

  lemma OpenerIsSteady(p: Primitives)
    ensures Steady(RawOpener(p))
  {
    forall h, record | Usable(h) && |record| >= RECORD_HEADER_LEN
      ensures var d := Decrypt(p, h, record); d.Opened? ==> Usable(d.half) && d.half.version == h.version
    {
    }
  }

  /**
   * What reading one record off the wire gives: its type and content, or a permanent error, in which case
   * `taken` tells whether the record had already been taken off the wire.
   */
  datatype Fetched = Got(s: Reader, typ: byte, data: bytes) | Broken(s: Reader, reason: Reason, taken: bool)

  /** The whole of the first record on the wire. */
  function FirstRecord(raw: bytes): (r: bytes)
    requires |raw| >= RECORD_HEADER_LEN && |raw| >= RECORD_HEADER_LEN + Uint(raw[3..5])
    ensures |r| >= RECORD_HEADER_LEN && r <= raw
  {
    raw[..RECORD_HEADER_LEN + Uint(raw[3..5])]
  }

  /** A complete record whose header the reader accepts at this point of the connection. */
  predicate HeaderAccepted(c: Progress, raw: bytes) {
    && |raw| >= RECORD_HEADER_LEN
    && var (typ, vers, n) := (raw[0], Uint(raw[1..3]), Uint(raw[3..5]));
       && |raw| >= RECORD_HEADER_LEN + n
       && n <= (if c.vers == VERSION_TLS13 then MAX_CIPHERTEXT_TLS13 else MAX_CIPHERTEXT)
       && (c.handshakeComplete || typ != 0x80)
       && (c.haveVers ==> c.vers == VERSION_TLS13 || vers == c.vers)
       && (!c.haveVers ==> vers < 0x1000 && (typ == TYPE_ALERT || typ == TYPE_HANDSHAKE))
  }

  /** The header checks, in their order: what is wrong with the record at the head of the wire, if anything. */
  function HeaderProblem(c: Progress, raw: bytes): (r: Option<Reason>)
    ensures r.None? <==> HeaderAccepted(c, raw)
  {
    if |raw| < RECORD_HEADER_LEN then Some(ShortRead)
    else
      var (typ, vers, n) := (raw[0], Uint(raw[1..3]), Uint(raw[3..5]));
      if !c.handshakeComplete && typ == 0x80 then Some(LocalAlert(ALERT_PROTOCOL_VERSION))
      else if c.haveVers && c.vers != VERSION_TLS13 && vers != c.vers then Some(LocalAlert(ALERT_PROTOCOL_VERSION))
      else if !c.haveVers && ((typ != TYPE_ALERT && typ != TYPE_HANDSHAKE) || vers >= 0x1000) then Some(BadHeader)
      else if (c.vers == VERSION_TLS13 && n > MAX_CIPHERTEXT_TLS13) || n > MAX_CIPHERTEXT then Some(LocalAlert(ALERT_RECORD_OVERFLOW))
      else if |raw| < RECORD_HEADER_LEN + n then Some(ShortRead)
      else None
  }

  /**
   * Header checks and decryption: exactly the complete records with an acceptable header leave the wire,
   * and exactly those of them that open under the current keys are delivered.
   */
  function Fetch(open: Opener, s: Reader): (r: Fetched)
    requires Sound(s)
    ensures r.Got? ==> Sound(r.s) && Skipped(s, r.s) && r.s.retryCount == s.retryCount
    ensures r.Got? || r.taken <==> HeaderAccepted(s.conf, s.raw)
    ensures HeaderAccepted(s.conf, s.raw) ==> s.raw == FirstRecord(s.raw) + r.s.raw && (r.Got? <==> open(s.half, FirstRecord(s.raw)).Opened?)
    ensures r.Got? ==> open(s.half, FirstRecord(s.raw)) == Opened(r.s.half, r.data, r.typ)
    ensures r.Broken? ==> r.s == s.(raw := r.s.raw) && (!r.taken ==> r.s == s)
  {
    match HeaderProblem(s.conf, s.raw)
    case Some(reason) => Broken(s, reason, false)
    case None =>
      var record := FirstRecord(s.raw);
      var rest := s.raw[|record|..];
      match open(s.half, record)
      case Opened(half, data, t) => Got(s.(half := half, raw := rest), t, data)
      case Rejected(alert) => Broken(s.(raw := rest), LocalAlert(alert), true)
      case OpenWrapped => Broken(s.(raw := rest), SequencePanic, true)
  }

  datatype Verdict = Done(s: Reader) | Retry(s: Reader) | Stop(s: Reader, reason: Reason)

  predicate Advancing(typ: byte, data: bytes) {
    typ != TYPE_ALERT && typ != TYPE_CHANGE_CIPHER_SPEC && |data| > 0
  }

  /** The checks and the switch on the record type that follow decryption. */
  function Dispatch(s0: Reader, typ: byte, data: bytes, expectCcs: bool): Verdict {
    if |data| > MAX_PLAINTEXT then Stop(s0, LocalAlert(ALERT_RECORD_OVERFLOW))
    else if s0.half.cipher.NullCipher? && typ == TYPE_APPLICATION_DATA then Stop(s0, LocalAlert(ALERT_UNEXPECTED_MESSAGE))
    else
      var s := if Advancing(typ, data) then s0.(retryCount := 0) else s0;
      if s.conf.vers == VERSION_TLS13 && typ != TYPE_HANDSHAKE && s.hand != [] then Stop(s, LocalAlert(ALERT_UNEXPECTED_MESSAGE))
      else if typ == TYPE_ALERT then
        if |data| != 2 then Stop(s, LocalAlert(ALERT_UNEXPECTED_MESSAGE))
        else if data[1] == ALERT_CLOSE_NOTIFY then Stop(s, CloseNotify)
        else if s.conf.vers == VERSION_TLS13 then Stop(s, RemoteAlert(data[1]))
        else if data[0] == ALERT_LEVEL_WARNING then Retry(s)
        else if data[0] == ALERT_LEVEL_ERROR then Stop(s, RemoteAlert(data[1]))
        else Stop(s, LocalAlert(ALERT_UNEXPECTED_MESSAGE))
      else if typ == TYPE_CHANGE_CIPHER_SPEC then
        if data != [1] then Stop(s, LocalAlert(ALERT_DECODE_ERROR))
        else if s.hand != [] then Stop(s, LocalAlert(ALERT_UNEXPECTED_MESSAGE))
        else if s.conf.vers == VERSION_TLS13 then Retry(s)
        else if !expectCcs then Stop(s, LocalAlert(ALERT_UNEXPECTED_MESSAGE))
        else if s.next.cipher.NullCipher? || s.half.version == VERSION_TLS13 then Stop(s, LocalAlert(ALERT_INTERNAL_ERROR))
        else Done(s.(half := Half(s.half.version, s.next.cipher, s.next.mac, 0),
                     next := Prepared(NullCipher, None), cipherSpecs := s.cipherSpecs + 1))
      else if typ == TYPE_APPLICATION_DATA then
        if !s.conf.handshakeComplete || expectCcs then Stop(s, LocalAlert(ALERT_UNEXPECTED_MESSAGE))
        else if data == [] then Retry(s)
        else Done(s.(input := data))
      else if typ == TYPE_HANDSHAKE then
        if data == [] || expectCcs then Stop(s, LocalAlert(ALERT_UNEXPECTED_MESSAGE))
        else Done(s.(hand := s.hand + data))
      else Stop(s, LocalAlert(ALERT_UNEXPECTED_MESSAGE))
  }

  /** A retry leaves everything but the stream and the cipher state as it was; nothing but progress resets the count. */
  lemma DispatchEffects(s: Reader, typ: byte, data: bytes, expectCcs: bool)
    requires Sound(s) && s.input == []
    ensures match Dispatch(s, typ, data, expectCcs)
            case Stop(t, _) => t == s.(retryCount := t.retryCount)
            case Retry(t) => t == s
            case Done(t) => Sound(t) && OneEffect(s, t, expectCcs)
  {
  }

  /** Exactly one of the three things a successful read may do. */
  ghost predicate OneEffect(s: Reader, t: Reader, expectCcs: bool) {
    || HandGrew(s, t, expectCcs)
    || CipherChanged(s, t, expectCcs)
    || InputSet(s, t, expectCcs)
  }

  ghost predicate HandGrew(s: Reader, t: Reader, expectCcs: bool) {
    && !expectCcs && s.hand < t.hand && |t.hand| <= |s.hand| + MAX_PLAINTEXT
    && t == s.(hand := t.hand, retryCount := 0)
  }

  ghost predicate CipherChanged(s: Reader, t: Reader, expectCcs: bool) {
    && expectCcs && s.conf.vers != VERSION_TLS13 && s.hand == [] && !s.next.cipher.NullCipher?
    && t == s.(half := Half(s.half.version, s.next.cipher, s.next.mac, 0), next := Prepared(NullCipher, None),
               cipherSpecs := s.cipherSpecs + 1)
  }

  ghost predicate InputSet(s: Reader, t: Reader, expectCcs: bool) {
    && !expectCcs && s.conf.handshakeComplete && !s.half.cipher.NullCipher? && 0 < |t.input| <= MAX_PLAINTEXT
    && (s.conf.vers == VERSION_TLS13 ==> s.hand == [])
    && t == s.(input := t.input, retryCount := 0)
  }

  /** Records passed over: only stream, cipher state and retry count moved. */
  ghost predicate Skipped(s: Reader, t: Reader) {
    && t == s.(half := t.half, raw := t.raw, retryCount := t.retryCount)
    && t.half.version == s.half.version && |t.raw| < |s.raw|
  }

  /** A failed call leaves handshake buffer, input and cipher specification alone and fails for good. */
  ghost predicate NoEffect(s: Reader, t: Reader) {
    t.failed && t.hand == s.hand && t.cipherSpecs == s.cipherSpecs && t.input == s.input
  }

  lemma SkipOne(s: Reader, s1: Reader, before: Reader, last: Reader)
    requires Skipped(s, s1)
    ensures Skipped(s1.(retryCount := s1.retryCount + 1), before) ==> Skipped(s, before)
    ensures NoEffect(s1, last) ==> NoEffect(s, last)
  {
  }

  /** One turn of the reader: it ends the call, or passes over a record. */
  datatype Turn = Ends(before: Reader, s: Reader, out: Outcome, records: nat) | Ignores(s: Reader)

  /** Reading and judging a single record. */
  function Take(open: Opener, s: Reader, expectCcs: bool): (r: Turn)
    requires Sound(s)
    ensures r.Ends? ==> r.records <= 1
    ensures r.Ends? && r.out.Ok? ==> Sound(r.s) && Skipped(s, r.before) && OneEffect(r.before, r.s, expectCcs)
    ensures r.Ends? && r.out.Fail? ==> NoEffect(s, r.s)
    ensures r.Ignores? ==> Sound(r.s) && Skipped(s, r.s) && r.s.retryCount == s.retryCount
  {
    if s.failed then Ends(s, s, Fail(EarlierError), 0)
    else if s.input != [] then Ends(s, Failed(s, PendingInput), Fail(PendingInput), 0)
    else
      match Fetch(open, s)
      case Broken(s1, reason, taken) => Ends(s1, Failed(s1, reason), Fail(reason), if taken then 1 else 0)
      case Got(s1, typ, data) =>
        DispatchEffects(s1, typ, data, expectCcs);
        match Dispatch(s1, typ, data, expectCcs)
        case Stop(s2, reason) => Ends(s1, Failed(s2, reason), Fail(reason), 1)
        case Done(s2) => Ends(s1, s2, Ok, 1)
        case Retry(s2) => Ignores(s2)
  }

  /** All that the recursion relies on in one turn. */
  ghost predicate TakesWell(take: (Reader, bool) -> Turn, s: Reader, expectCcs: bool) {
    Sound(s) ==>
      var r := take(s, expectCcs);
      && (r.Ends? ==> r.records <= 1)
      && (r.Ends? && r.out.Ok? ==> Sound(r.s) && Skipped(s, r.before) && OneEffect(r.before, r.s, expectCcs))
      && (r.Ends? && r.out.Fail? ==> NoEffect(s, r.s))
      && (r.Ignores? ==> Sound(r.s) && Skipped(s, r.s) && r.s.retryCount == s.retryCount)
  }

  type Taker = take: (Reader, bool) -> Turn | forall s, e :: TakesWell(take, s, e)
    ghost witness (s: Reader, _: bool) => Ends(s, Failed(s, ShortRead), Fail(ShortRead), 0)

  function RawTaker(open: Opener): (Reader, bool) -> Turn {
    (s: Reader, e: bool) => if Sound(s) then Take(open, s, e) else Ends(s, Failed(s, ShortRead), Fail(ShortRead), 0)
  }

  /** One turn under these keys, as the recursion sees it. */
  function TakerOf(open: Opener): Taker {
    assert forall s, e :: TakesWell(RawTaker(open), s, e);
    RawTaker(open)
  }

  /** The result of a read: the state before the deciding record took effect, the final state, and the records taken. */
  datatype ReadResult = ReadResult(before: Reader, s: Reader, out: Outcome, records: nat)

  /** readRecordOrCCS. */
  function Read(open: Opener, s: Reader, expectCcs: bool): (r: ReadResult)
    requires Sound(s)
    ensures r.out.Ok? ==> Sound(r.s) && |r.s.raw| < |s.raw|
  {
    ReadBy(TakerOf(open), s, expectCcs)
  }

  /** retryReadRecord: counts the ignored record and reads on, up to the limit. */
  function Reread(open: Opener, s: Reader, expectCcs: bool): (r: ReadResult)
    requires Sound(s)
    ensures r.out.Ok? ==> Sound(r.s) && |r.s.raw| < |s.raw|
  {
    RereadBy(TakerOf(open), s, expectCcs)
  }

  /** The mutual recursion of the two, over any way to take a turn. */
  function ReadBy(take: Taker, s: Reader, expectCcs: bool): (r: ReadResult)
    requires Sound(s)
    ensures r.out.Ok? ==> Sound(r.s) && |r.s.raw| < |s.raw|
    decreases MAX_USELESS_RECORDS + 1 - s.retryCount, 1
  {
    assert TakesWell(take, s, expectCcs);
    match take(s, expectCcs)
    case Ends(before, t, out, n) => ReadResult(before, t, out, n)
    case Ignores(s1) =>
      var r := RereadBy(take, s1, expectCcs);
      r.(records := r.records + 1)
  }

  function RereadBy(take: Taker, s: Reader, expectCcs: bool): (r: ReadResult)
    requires Sound(s)
    ensures r.out.Ok? ==> Sound(r.s) && |r.s.raw| < |s.raw|
    decreases MAX_USELESS_RECORDS + 1 - s.retryCount, 0
  {
    var s1 := s.(retryCount := s.retryCount + 1);
    if s1.retryCount > MAX_USELESS_RECORDS then
      ReadResult(s1, Failed(s1, LocalAlert(ALERT_UNEXPECTED_MESSAGE)), Fail(TooManyIgnored), 0)
    else ReadBy(take, s1, expectCcs)
  }

  /** What a call started at s has done. */
  ghost predicate Progressed(s: Reader, r: ReadResult, expectCcs: bool) {
    && r.records <= MAX_USELESS_RECORDS + 1 - s.retryCount
    && (r.out.Ok? ==> Sound(r.s) && Skipped(s, r.before) && OneEffect(r.before, r.s, expectCcs))
    && (r.out.Fail? ==> NoEffect(s, r.s))
  }

  lemma {:induction false} TurnsMakeProgress(take: Taker, s: Reader, expectCcs: bool)
    requires Sound(s)
    ensures Progressed(s, ReadBy(take, s, expectCcs), expectCcs)
    decreases MAX_USELESS_RECORDS + 1 - s.retryCount
  {
    assert TakesWell(take, s, expectCcs);
    var turn := take(s, expectCcs);
    if turn.Ignores? {
      var s1 := turn.s;
      var s2 := s1.(retryCount := s1.retryCount + 1);
      if s2.retryCount <= MAX_USELESS_RECORDS {
        TurnsMakeProgress(take, s2, expectCcs);
      }
      SkipOne(s, s1, RereadBy(take, s1, expectCcs).before, RereadBy(take, s1, expectCcs).s);
    }
  }

  /**
   * Read-loop progress: for any peer input a call takes at most 17 records off the wire, fewer if earlier
   * calls already ignored some; a successful call has exactly one of its three effects and a failed one none.
   */
  lemma ReadMakesProgress(open: Opener, s: Reader, expectCcs: bool)
    requires Sound(s)
    ensures var r := Read(open, s, expectCcs);
            && r.records <= MAX_USELESS_RECORDS + 1 - s.retryCount
            && (r.out.Ok? ==> Sound(r.s) && Skipped(s, r.before) && OneEffect(r.before, r.s, expectCcs))
            && (r.out.Fail? ==> NoEffect(s, r.s))
  {
    TurnsMakeProgress(TakerOf(open), s, expectCcs);
  }

  /** And so for a retry, which has one record less to spend. */
  lemma RetryMakesProgress(open: Opener, s: Reader, expectCcs: bool)
    requires Sound(s)
    ensures var r := Reread(open, s, expectCcs);
            && r.records <= MAX_USELESS_RECORDS - s.retryCount
            && (r.out.Ok? ==> Sound(r.s) && Skipped(s.(retryCount := s.retryCount + 1), r.before) && OneEffect(r.before, r.s, expectCcs))
            && (r.out.Fail? ==> NoEffect(s, r.s))
  {
    var s1 := s.(retryCount := s.retryCount + 1);
    if s1.retryCount <= MAX_USELESS_RECORDS {
      TurnsMakeProgress(TakerOf(open), s1, expectCcs);
    }
  }

  /** The three effects exclude each other. */
  lemma EffectsAreExclusive(s: Reader, t: Reader, expectCcs: bool)
    requires Sound(s) && s.input == [] && OneEffect(s, t, expectCcs)
    ensures HandGrew(s, t, expectCcs) <==> t.hand != s.hand
    ensures CipherChanged(s, t, expectCcs) <==> t.cipherSpecs != s.cipherSpecs
    ensures InputSet(s, t, expectCcs) <==> t.input != s.input
    ensures s.conf.vers == VERSION_TLS13 ==> t.half == s.half
  {
  }
}
