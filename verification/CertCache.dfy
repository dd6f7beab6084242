/**
 * cache.go: the reference-counted intern table of parsed certificates. Every operation on the
 * shared map and every atomic add is one step; newCert calls and finalizers interleave arbitrarily.
 */
module CertCache {
  import opened Bytes

  /** A parsed certificate: its DER encoding and everything else parsing found. */
  datatype Certificate = Certificate(raw: bytes, content: bytes)

  /** x509.ParseCertificate, which keeps the encoding it was given. */
  type Parser = parse: bytes -> Option<Certificate> | forall d :: parse(d).Some? ==> parse(d).value.raw == d
    ghost witness RejectAll()

  function RejectAll(): bytes -> Option<Certificate> {
    _ => None
  }

  datatype Entry = Entry(cert: Certificate, refs: int)

  /** An activeCert with the finalizer that will release its entry; live until that finalizer has decremented. */
  datatype Handle = Handle(entry: nat, der: bytes, cert: Certificate, live: bool)

  /** Progress of one newCert(der) call. */
  datatype Call =
    | Idle(der: bytes)                         // not yet started
    | Missed(der: bytes)                       // Load found nothing
    | Parsed(der: bytes, cert: Certificate)    // about to LoadOrStore
    | Activating(der: bytes, entry: nat)       // holds an entry, about to increment it
    | Rejected
    | Returned(handle: nat)

  datatype State = State(entries: seq<Entry>, table: map<bytes, nat>, handles: seq<Handle>, calls: seq<Call>,
                         evicting: seq<nat>)

  datatype Action = Advance(call: nat) | Finalize(handle: nat) | Evict(k: nat)

  predicate Enabled(s: State, a: Action) {
    match a
    case Advance(i) => i < |s.calls| && !s.calls[i].Rejected? && !s.calls[i].Returned?
    case Finalize(h) => h < |s.handles| && s.handles[h].live && s.handles[h].entry < |s.entries|
    case Evict(k) => k < |s.evicting| && s.evicting[k] < |s.entries|
  }

  function WithCall(s: State, i: nat, c: Call): State
    requires i < |s.calls|
  {
    s.(calls := s.calls[i := c])
  }

  function AddRef(es: seq<Entry>, e: nat, n: int): seq<Entry>
    requires e < |es|
  {
    es[e := es[e].(refs := es[e].refs + n)]
  }

  /** The next step of newCert call i. */
  function AdvanceCall(parse: Parser, s: State, i: nat): State
    requires Enabled(s, Advance(i))
  {
    match s.calls[i]
    case Idle(der) => WithCall(s, i, if der in s.table then Activating(der, s.table[der]) else Missed(der))
    case Missed(der) => WithCall(s, i, if parse(der).Some? then Parsed(der, parse(der).value) else Rejected)
    case Parsed(der, cert) =>
      if der in s.table then WithCall(s, i, Activating(der, s.table[der]))
      else
        WithCall(s.(entries := s.entries + [Entry(cert, 0)], table := s.table[der := |s.entries|]), i,
                 Activating(der, |s.entries|))
    case Activating(der, e) =>
      if e >= |s.entries| then s
      else
        WithCall(s.(entries := AddRef(s.entries, e, 1),
                    handles := s.handles + [Handle(e, der, s.entries[e].cert, true)]), i, Returned(|s.handles|))
    case Rejected => s
    case Returned(_) => s
  }

  function Do(parse: Parser, s: State, a: Action): State
    requires Enabled(s, a)
  {
    match a
    case Advance(i) => AdvanceCall(parse, s, i)
    case Finalize(h) =>
      var e := s.handles[h].entry;
      var t := s.(entries := AddRef(s.entries, e, -1), handles := s.handles[h := s.handles[h].(live := false)]);
      if t.entries[e].refs == 0 then t.(evicting := t.evicting + [e]) else t
    case Evict(k) =>
      s.(table := s.table - {s.entries[s.evicting[k]].cert.raw}, evicting := s.evicting[..k] + s.evicting[k + 1..])
  }

  predicate Initial(s: State) {
    s.entries == [] && s.table == map[] && s.handles == [] && s.evicting == [] && forall c <- s.calls :: c.Idle?
  }

  ghost predicate Run(parse: Parser, ss: seq<State>, acts: seq<Action>) {
    && |ss| == |acts| + 1 && Initial(ss[0])
    && forall k :: 0 <= k < |acts| ==> StepsTo(parse, ss[k], acts[k], ss[k + 1])
  }

  ghost predicate StepsTo(parse: Parser, s: State, a: Action, t: State) {
    Enabled(s, a) && t == Do(parse, s, a)
  }

  /** Live handles on entry e. */
  function Live(hs: seq<Handle>, e: nat): nat {
    if hs == [] then 0 else (if hs[0].live && hs[0].entry == e then 1 else 0) + Live(hs[1..], e)
  }

  /** Every entry counts its live handles and holds the parse of its own encoding. */
  ghost predicate EntriesOk(parse: Parser, s: State) {
    forall e :: 0 <= e < |s.entries| ==>
      s.entries[e].refs == Live(s.handles, e) && parse(s.entries[e].cert.raw) == Some(s.entries[e].cert)
  }

  ghost predicate HandlesOk(parse: Parser, s: State) {
    forall h :: 0 <= h < |s.handles| ==>
      s.handles[h].entry < |s.entries| && parse(s.handles[h].der) == Some(s.handles[h].cert)
  }

  ghost predicate CallsOk(parse: Parser, s: State) {
    forall i :: 0 <= i < |s.calls| ==>
      match s.calls[i]
      case Parsed(der, cert) => parse(der) == Some(cert)
      case Activating(der, e) => e < |s.entries| && s.entries[e].cert.raw == der
      case _ => true
  }

  /** Someone is still going to use or to remove entry e. */
  ghost predicate Accounted(s: State, e: nat)
    requires e < |s.entries|
  {
    || s.entries[e].refs > 0
    || (exists i :: 0 <= i < |s.calls| && s.calls[i].Activating? && s.calls[i].entry == e)
    || e in s.evicting
  }

  ghost predicate TableOk(s: State) {
    forall d :: d in s.table ==>
      s.table[d] < |s.entries| && s.entries[s.table[d]].cert.raw == d && Accounted(s, s.table[d])
  }

  ghost predicate EvictingOk(s: State) {
    forall k :: 0 <= k < |s.evicting| ==> s.evicting[k] < |s.entries|
  }

  ghost predicate Inv(parse: Parser, s: State) {
    EntriesOk(parse, s) && HandlesOk(parse, s) && CallsOk(parse, s) && TableOk(s) && EvictingOk(s)
  }

  lemma {:induction false} LiveAppend(hs: seq<Handle>, h: Handle, e: nat)
    ensures Live(hs + [h], e) == Live(hs, e) + if h.live && h.entry == e then 1 else 0
  {
    if hs == [] {
      assert [h][1..] == [];
    } else {
      assert (hs + [h])[1..] == hs[1..] + [h];
      LiveAppend(hs[1..], h, e);
    }
  }

  lemma {:induction false} LiveDrop(hs: seq<Handle>, k: nat, e: nat)
    requires k < |hs| && hs[k].live
    ensures Live(hs[k := hs[k].(live := false)], e) == Live(hs, e) - if hs[k].entry == e then 1 else 0
  {
    var dead := hs[k].(live := false);
    if k == 0 {
      assert hs[0 := dead][1..] == hs[1..];
    } else {
      assert hs[k := dead][1..] == hs[1..][k - 1 := dead];
      LiveDrop(hs[1..], k - 1, e);
    }
  }

  lemma {:induction false} LiveNone(hs: seq<Handle>, e: nat)
    requires forall h :: 0 <= h < |hs| ==> hs[h].live ==> hs[h].entry != e
    ensures Live(hs, e) == 0
  {
    if hs != [] {
      LiveNone(hs[1..], e);
    }
  }

  /** Who accounts for a table entry after a call has moved on without touching counts or evictions. */
  lemma AccountedAfterCall(s: State, i: nat, c: Call, e: nat)
    requires i < |s.calls| && e < |s.entries| && Accounted(s, e) && !s.calls[i].Activating?
    ensures Accounted(WithCall(s, i, c), e)
  {
    if j :| 0 <= j < |s.calls| && s.calls[j].Activating? && s.calls[j].entry == e {
      assert WithCall(s, i, c).calls[j] == s.calls[j];
    }
  }

  lemma CallMovesKeeps(parse: Parser, s: State, i: nat, c: Call)
    requires Inv(parse, s) && i < |s.calls| && !s.calls[i].Activating?
    requires CallsOk(parse, WithCall(s, i, c))
    ensures Inv(parse, WithCall(s, i, c))
  {
    forall d | d in s.table
      ensures Accounted(WithCall(s, i, c), s.table[d])
    {
      AccountedAfterCall(s, i, c, s.table[d]);
    }
  }

  lemma StoreKeeps(parse: Parser, s: State, i: nat)
    requires Inv(parse, s) && i < |s.calls| && s.calls[i].Parsed? && s.calls[i].der !in s.table
    ensures Inv(parse, AdvanceCall(parse, s, i))
  {
    var t := AdvanceCall(parse, s, i);
    LiveNone(s.handles, |s.entries|);
    forall d | d in t.table
      ensures t.table[d] < |t.entries| && t.entries[t.table[d]].cert.raw == d && Accounted(t, t.table[d])
    {
      if d == s.calls[i].der {
        assert t.calls[i].Activating? && t.calls[i].entry == t.table[d];
      } else {
        AccountedAfterCall(s, i, t.calls[i], s.table[d]);
        if j :| 0 <= j < |t.calls| && WithCall(s, i, t.calls[i]).calls[j].Activating?
                && WithCall(s, i, t.calls[i]).calls[j].entry == s.table[d] {
          assert t.calls[j].Activating? && t.calls[j].entry == s.table[d];
        }
      }
    }
  }

  lemma ActivateKeeps(parse: Parser, s: State, i: nat)
    requires Inv(parse, s) && i < |s.calls| && s.calls[i].Activating?
    ensures Inv(parse, AdvanceCall(parse, s, i))
  {
    var t := AdvanceCall(parse, s, i);
    var (der, e) := (s.calls[i].der, s.calls[i].entry);
    var h := Handle(e, der, s.entries[e].cert, true);
    forall x | 0 <= x < |t.entries|
      ensures t.entries[x].refs == Live(t.handles, x) && parse(t.entries[x].cert.raw) == Some(t.entries[x].cert)
    {
      LiveAppend(s.handles, h, x);
    }
    forall d | d in t.table
      ensures Accounted(t, t.table[d])
    {
      assert Accounted(s, s.table[d]);
      if j :| 0 <= j < |s.calls| && s.calls[j].Activating? && s.calls[j].entry == s.table[d] && j != i {
        assert t.calls[j] == s.calls[j];
      }
    }
  }

  lemma FinalizeKeeps(parse: Parser, s: State, k: nat)
    requires Inv(parse, s) && Enabled(s, Finalize(k))
    ensures Inv(parse, Do(parse, s, Finalize(k)))
  {
    var t := Do(parse, s, Finalize(k));
    var e := s.handles[k].entry;
    forall x | 0 <= x < |t.entries|
      ensures t.entries[x].refs == Live(t.handles, x) && parse(t.entries[x].cert.raw) == Some(t.entries[x].cert)
    {
      LiveDrop(s.handles, k, x);
    }
    forall d | d in t.table
      ensures Accounted(t, t.table[d])
    {
      assert Accounted(s, s.table[d]);
      if s.table[d] == e && t.entries[e].refs == 0 {
        assert t.evicting[|s.evicting|] == e;
      } else if s.table[d] in s.evicting {
        var j :| 0 <= j < |s.evicting| && s.evicting[j] == s.table[d];
        assert t.evicting[j] == s.table[d];
      }
    }
  }

  lemma EvictKeeps(parse: Parser, s: State, k: nat)
    requires Inv(parse, s) && Enabled(s, Evict(k))
    ensures Inv(parse, Do(parse, s, Evict(k)))
  {
    var t := Do(parse, s, Evict(k));
    forall d | d in t.table
      ensures Accounted(t, t.table[d])
    {
      assert Accounted(s, s.table[d]);
      if s.table[d] in s.evicting {
        var j :| 0 <= j < |s.evicting| && s.evicting[j] == s.table[d];
        assert j != k;
        assert t.evicting[if j < k then j else j - 1] == s.table[d];
      }
    }
  }

  lemma StepKeeps(parse: Parser, s: State, a: Action)
    requires Inv(parse, s) && Enabled(s, a)
    ensures Inv(parse, Do(parse, s, a))
  {
    match a {
      case Advance(i) =>
        if s.calls[i].Activating? {
          ActivateKeeps(parse, s, i);
        } else if s.calls[i].Parsed? && s.calls[i].der !in s.table {
          StoreKeeps(parse, s, i);
        } else {
          CallMovesKeeps(parse, s, i, AdvanceCall(parse, s, i).calls[i]);
        }
      case Finalize(h) => FinalizeKeeps(parse, s, h);
      case Evict(k) => EvictKeeps(parse, s, k);
    }
  }

  lemma {:induction false} ReachableInv(parse: Parser, ss: seq<State>, acts: seq<Action>, n: nat)
    requires Run(parse, ss, acts) && n <= |acts|
    ensures Inv(parse, ss[n])
  {
    if n == 0 {
      forall i | 0 <= i < |ss[0].calls|
        ensures ss[0].calls[i].Idle?
      {
        assert ss[0].calls[i] in ss[0].calls;
      }
    } else {
      ReachableInv(parse, ss, acts, n - 1);
      var m := n - 1;
      assert StepsTo(parse, ss[m], acts[m], ss[m + 1]);
      StepKeeps(parse, ss[m], acts[m]);
    }
  }

  /** Reference counts are exact, so never negative, and every handle carries the parse of the DER it was asked for. */
  lemma CountsAndHandlesCorrect(parse: Parser, ss: seq<State>, acts: seq<Action>, n: nat)
    requires Run(parse, ss, acts) && n <= |acts|
    ensures forall e :: 0 <= e < |ss[n].entries| ==> ss[n].entries[e].refs == Live(ss[n].handles, e) >= 0
    ensures forall h :: 0 <= h < |ss[n].handles| ==> parse(ss[n].handles[h].der) == Some(ss[n].handles[h].cert)
  {
    ReachableInv(parse, ss, acts, n);
  }

  /** What a call that was started for a DER has to show for it. */
  ghost predicate Serves(parse: Parser, s: State, i: nat, der: bytes) {
    i < |s.calls| &&
    match s.calls[i]
    case Rejected => parse(der).None?
    case Returned(h) => h < |s.handles| && s.handles[h].der == der
    case c => c.der == der
  }

  lemma StepServes(parse: Parser, s: State, a: Action, i: nat, der: bytes)
    requires Inv(parse, s) && Enabled(s, a) && Serves(parse, s, i, der)
    ensures Serves(parse, Do(parse, s, a), i, der)
  {
    match a {
      case Advance(j) =>
        if j == i {
          AdvanceServes(parse, s, i, der);
        }
      case Finalize(h) =>
      case Evict(k) =>
    }
  }

  lemma AdvanceServes(parse: Parser, s: State, i: nat, der: bytes)
    requires Inv(parse, s) && Enabled(s, Advance(i)) && Serves(parse, s, i, der)
    ensures Serves(parse, Do(parse, s, Advance(i)), i, der)
  {
  }

  lemma {:induction false} CallServes(parse: Parser, ss: seq<State>, acts: seq<Action>, n: nat, i: nat, der: bytes)
    requires Run(parse, ss, acts) && n <= |acts| && Serves(parse, ss[0], i, der)
    ensures Serves(parse, ss[n], i, der)
  {
    if n > 0 {
      var m := n - 1;
      CallServes(parse, ss, acts, m, i, der);
      ReachableInv(parse, ss, acts, m);
      assert StepsTo(parse, ss[m], acts[m], ss[m + 1]);
      StepServes(parse, ss[m], acts[m], i, der);
    }
  }

  /** A returned handle is for the DER the call was started with. */
  lemma CallReturnsItsDer(parse: Parser, ss: seq<State>, acts: seq<Action>, n: nat, i: nat)
    requires Run(parse, ss, acts) && n <= |acts| && i < |ss[0].calls|
    ensures ss[0].calls[i].Idle? && Serves(parse, ss[n], i, ss[0].calls[i].der)
  {
    assert ss[0].calls[i] in ss[0].calls;
    CallServes(parse, ss, acts, n, i, ss[0].calls[i].der);
  }

  /** No call is between its first and its last step, and no finalizer is about to evict. */
  predicate Settled(s: State) {
    s.evicting == [] && forall i :: 0 <= i < |s.calls| ==> s.calls[i].Idle? || s.calls[i].Rejected? || s.calls[i].Returned?
  }

  /**
   * Nothing leaks: in spite of the race between active and evict, once no handle is live and
   * nothing is in progress the table is empty.
   */
  lemma SettledCacheIsEmpty(parse: Parser, ss: seq<State>, acts: seq<Action>, n: nat)
    requires Run(parse, ss, acts) && n <= |acts| && Settled(ss[n])
    requires forall h :: 0 <= h < |ss[n].handles| ==> !ss[n].handles[h].live
    ensures ss[n].table == map[]
  {
    ReachableInv(parse, ss, acts, n);
    var s := ss[n];
    forall d | d in s.table
      ensures false
    {
      assert Accounted(s, s.table[d]);
      LiveNone(s.handles, s.table[d]);
    }
    assert s.table.Keys == {};
  }
}
