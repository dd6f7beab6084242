/** The TLS 1.3 handshake and the record layer together: after an honest run, records flow both ways. */
module Channel13 {
  import opened Bytes
  import opened Handshake13
  import opened Agreement13
  import RecordLayer
  import RoundTrip

  /** trafficKey: the key and IV of a traffic secret. */
  type TrafficKey = t: (Suite, bytes) -> (bytes, bytes) | forall suite, secret :: |t(suite, secret).1| == 12
    ghost witness (_, _) => ([], Repeat(0, 12))

  /** The half-connection setTrafficSecret leaves. */
  function HalfFor(t: TrafficKey, suite: Suite, secret: bytes): RecordLayer.Half {
    var (key, iv) := t(suite, secret);
    RecordLayer.Half.Half(VERSION_TLS13, RecordLayer.XorNonceAead(key, iv), None, 0)
  }

  lemma HalfForUsable(t: TrafficKey, suite: Suite, secret: bytes)
    ensures RecordLayer.Usable(HalfFor(t, suite, secret)) && !HalfFor(t, suite, secret).cipher.NullCipher?
  {
    assert |t(suite, secret).1| == 12;
  }

  /** A sealed run under one traffic secret opens, record by record, in a receiver that starts from another. */
  ghost predicate Delivers(p: RecordLayer.Primitives, t: TrafficKey, suite: Suite, sent: bytes, suite1: Suite, received: bytes) {
    forall states, fs, records ::
      RoundTrip.SealsTo(p, VERSION_TLS12, states, fs, records) && states[0] == HalfFor(t, suite, sent)
      && |fs| < RecordLayer.SEQ_LIMIT && (forall i :: 0 <= i < |fs| ==> RoundTrip.Sendable(VERSION_TLS13, fs[i]))
      ==> states[0] == HalfFor(t, suite1, received) && RoundTrip.OpensTo(p, states, records, fs)
  }

  lemma SameSecretDelivers(p: RecordLayer.Primitives, t: TrafficKey, suite: Suite, secret: bytes)
    requires RecordLayer.Lawful(p)
    ensures Delivers(p, t, suite, secret, suite, secret)
  {
    forall states, fs, records |
      RoundTrip.SealsTo(p, VERSION_TLS12, states, fs, records) && states[0] == HalfFor(t, suite, secret)
      && |fs| < RecordLayer.SEQ_LIMIT && (forall i :: 0 <= i < |fs| ==> RoundTrip.Sendable(VERSION_TLS13, fs[i]))
      ensures RoundTrip.OpensTo(p, states, records, fs)
    {
      HalfForUsable(t, suite, secret);
      RoundTrip.StreamOfRecordsRoundTrip(p, VERSION_TLS12, states, fs, records);
    }
  }

  /** Whatever either side sends after an honest handshake arrives with its types and octets, in order. */
  lemma ApplicationDataFlows(p: RecordLayer.Primitives, t: TrafficKey, done: Completed)
    requires RecordLayer.Lawful(p) && Concluded(done)
    ensures var (c, s) := (done.client, done.server.core);
            && Delivers(p, t, c.suite, c.secrets.outgoing, s.suite, s.secrets.incoming)
            && Delivers(p, t, s.suite, s.secrets.outgoing, c.suite, c.secrets.incoming)
  {
    SameSecretDelivers(p, t, done.client.suite, done.client.secrets.outgoing);
    SameSecretDelivers(p, t, done.client.suite, done.client.secrets.incoming);
  }
}
