/** conn.go: the writing and the reading objects of two connections, joined by what one sent. */
module ConnRun {
  import opened Bytes
  import opened RecordLayer
  import opened RoundTrip
  import opened RecordReader
  import opened Reassembly
  import opened RecordWriter
  import opened ConnReader
  import opened DataReader
  import EndToEnd

  method ReadOne(c: Conn, open: Opener, accepts: Unmarshaler, ghost ss: seq<Reader>, ghost ms: seq<bytes>, ghost i: nat) returns (m: bytes)
    requires ReturnsInOrder(HandshakerOf(open, accepts), ss, ms) && i < |ms| && c.State() == ss[i]
    modifies c
    ensures m == ms[i] && c.State() == ss[i + 1]
  {
    assert Returns(HandshakerOf(open, accepts), ss[i], ss[i + 1], ms[i]);
    var message := c.ReadHandshakeMessage(open, accepts);
    m := message.data;
  }

  /** Calling readHandshake time after time. */
  method ReadMessages(c: Conn, open: Opener, accepts: Unmarshaler, count: nat, ghost ss: seq<Reader>, ghost ms: seq<bytes>)
    returns (got: seq<bytes>)
    requires ReturnsInOrder(HandshakerOf(open, accepts), ss, ms) && c.State() == ss[0] && count == |ms|
    modifies c
    ensures got == ms && c.State() == ss[count]
  {
    got := [];
    for i := 0 to count
      invariant got == ms[..i] && c.State() == ss[i]
    {
      var m := ReadOne(c, open, accepts, ss, ms, i);
      got := got + [m];
      assert ms[..i + 1] == ms[..i] + [ms[i]];
    }
  }

  /** Non-empty fragments are no more than the octets they carry. */
  lemma {:induction false} FragmentsFit(parts: seq<bytes>)
    requires forall i :: 0 <= i < |parts| ==> parts[i] != []
    ensures |parts| <= |Concat(parts)|
  {
    if parts != [] {
      FragmentsFit(parts[1..]);
    }
  }

  lemma RecordsInOrder(records: seq<bytes>)
    ensures From(records, 0) + [] == Concat(records)
  {
    EndToEnd.FromIsConcat(records, 0);
    assert records[0..] == records;
  }

  /**
   * Handshake messages written through writeRecordLocked on one side and read through readHandshake on the
   * other, whatever sizes were chosen and however messages and records overlap: they arrive one by one, and
   * the reader ends with nothing buffered, at the end of what was sent, in the writer's cipher state.
   */
  method Deliver(p: Primitives, accepts: Unmarshaler, w: Writer, c: Conn, ms: seq<bytes>, entropy: nat -> Option<Entropy>)
    returns (err: WriteError, got: seq<bytes>)
    requires Lawful(p) && w.out.Valid() && !w.out.cipher.NullCipher? && w.out.version == w.vers
    requires !w.out.nextCipher.NullCipher? && w.out.version != VERSION_TLS13 ==> Usable(Half(w.out.version, w.out.nextCipher, w.out.nextMac, 0))
    requires VERSION_TLS10 <= w.vers <= VERSION_TLS13 && w.out.Value().seqno + |Concat(ms)| < SEQ_LIMIT
    requires forall i :: 0 <= i < |ms| ==> Framed(accepts, ms[i])
    requires Ready(c.State(), Progress(w.vers, true, c.conf.handshakeComplete)) && c.hand == [] && c.raw == [] && c.half == w.out.Value()
    modifies w, w.out, w.out.seqNum, c
    ensures err == NoError ==> got == ms && c.hand == [] && c.raw == [] && w.out.Valid() && c.half == w.out.Value()
  {
    got := [];
    ghost var start := c.State();
    var n, records;
    ghost var fs, states, turns;
    n, err, records, fs, states, turns := w.WriteRecordLocked(p, TYPE_HANDSHAKE, Concat(ms), entropy);
    if err != NoError {
      return;
    }
    FragmentsFit(Payloads(fs));
    RecordsInOrder(records);
    c.raw := Concat(records);
    assert Concat(ms)[..n] == Concat(ms);
    ghost var ss := EndToEnd.WrittenMessagesAreRead(p, accepts, w.vers, start.(raw := Concat(records)), ms, [], states, fs, records);
    got := ReadMessages(c, OpenerOf(p), accepts, |ms|, ss, ms);
  }

  method ReadPiece(c: Conn, open: Opener, post: PostHandler, n: nat, ghost w: Wire, ghost k: nat, ghost left: bytes)
    returns (b: bytes, ghost k': nat)
    requires Carries(open, w) && Holds(c.State(), w, k, left) && left != [] && n > 0
    modifies c
    ensures 0 < |b| <= |left| && b == left[..|b|] && Holds(c.State(), w, k', left[|b|..])
  {
    ghost var t, piece;
    t, piece, k' := ReadsSome(open, post, c.State(), w, k, left, n);
    var out;
    b, out := c.ReadApplicationData(open, post, n);
  }

  /** Calling Read, each time with a buffer of the caller's choice, until `total` octets have come. */
  method ReadUntil(c: Conn, open: Opener, post: PostHandler, total: nat, sizes: nat -> nat, ghost w: Wire, ghost data: bytes)
    returns (got: bytes)
    requires Carries(open, w) && Holds(c.State(), w, 0, data) && total == |data| && forall i :: sizes(i) > 0
    modifies c
    ensures got == data && Holds(c.State(), w, |w.fs|, [])
  {
    got := [];
    var calls := 0;
    ghost var k := 0;
    while |got| < total
      invariant got <= data && Holds(c.State(), w, k, data[|got|..])
      decreases total - |got|
    {
      ghost var left := data[|got|..];
      var b;
      b, k := ReadPiece(c, open, post, sizes(calls), w, k, left);
      assert left[|b|..] == data[|got| + |b|..];
      assert got + b == data[..|got| + |b|];
      got, calls := got + b, calls + 1;
    }
    assert data[|got|..] == [];
    AllOpened(open, c.State(), w, k);
  }

  /**
   * Application data written through writeRecordLocked on one side and read through Read on the other with
   * buffers of any sizes: what comes out is what went in, octet for octet, and the reader ends with nothing
   * pending, at the end of what was sent, in the writer's cipher state.
   */
  method DeliverData(p: Primitives, post: PostHandler, w: Writer, c: Conn, data: bytes, sizes: nat -> nat, entropy: nat -> Option<Entropy>)
    returns (err: WriteError, got: bytes)
    requires Lawful(p) && w.out.Valid() && !w.out.cipher.NullCipher? && w.out.version == w.vers
    requires !w.out.nextCipher.NullCipher? && w.out.version != VERSION_TLS13 ==> Usable(Half(w.out.version, w.out.nextCipher, w.out.nextMac, 0))
    requires VERSION_TLS10 <= w.vers <= VERSION_TLS13 && w.out.Value().seqno + |data| < SEQ_LIMIT && forall i :: sizes(i) > 0
    requires Ready(c.State(), Progress(w.vers, true, true)) && c.hand == [] && c.raw == [] && c.half == w.out.Value()
    modifies w, w.out, w.out.seqNum, c
    ensures err == NoError ==> got == data && c.input == [] && c.hand == [] && c.raw == [] && w.out.Valid() && c.half == w.out.Value()
  {
    got := [];
    ghost var start := c.State();
    var n, records;
    ghost var fs, states, turns;
    n, err, records, fs, states, turns := w.WriteRecordLocked(p, TYPE_APPLICATION_DATA, data, entropy);
    if err != NoError {
      return;
    }
    c.raw := Concat(records);
    assert data[..n] == data;
    ghost var wire := WrittenHolds(p, w.vers, start.(raw := Concat(records)), data, states, fs, records);
    got := ReadUntil(c, OpenerOf(p), post, |data|, sizes, wire, data);
  }

  /** The reader at the start of a written run. */
  lemma WrittenHolds(p: Primitives, vers: nat, s: Reader, data: bytes, states: seq<Half>, fs: seq<Fragment>, records: seq<bytes>)
    returns (w: Wire)
    requires Lawful(p) && Written(p, WireVersion(vers), TYPE_APPLICATION_DATA, data, |data|, states, fs, records)
    requires !states[0].cipher.NullCipher? && states[0].seqno + |data| < SEQ_LIMIT
    requires VERSION_TLS10 <= vers <= VERSION_TLS13 && states[0].version == vers
    requires Ready(s, Progress(vers, true, true)) && s.hand == [] && s.half == states[0] && s.raw == Concat(records)
    ensures w == Wire(Progress(vers, true, true), states, records, Payloads(fs), [])
    ensures Carries(OpenerOf(p), w) && Holds(s, w, 0, data)
  {
    FragmentsFit(Payloads(fs));
    assert data[..|data|] == data;
    w := SealedRunCarries(p, vers, states, fs, records);
    RecordsInOrder(records);
    RecordsInOrder(w.fs);
    assert [] + From(w.fs, 0) == From(w.fs, 0) + [];
  }
}
