/**
 * conn.go: the KeyUpdate protocol between two connections joined by FIFO channels, as a state
 * machine in which writes, rekeyings and receptions interleave freely.
 */
module KeyUpdate {
  import opened Bytes

  /** nextTrafficSecret of key_schedule.go; nothing about it is assumed. */
  type NextSecret = bytes -> bytes

  /** One direction's traffic state at one end: the current secret, its generation, and the sequence number. */
  datatype Traffic = Traffic(secret: bytes, gen: nat, seqno: nat)

  datatype Body = Data(data: bytes) | Update(requested: bool)

  /** A record in flight, with the secret and sequence number it was sealed under. */
  datatype Record = Record(secret: bytes, seqno: nat, body: Body)

  datatype Endpoint = Endpoint(send: Traffic, recv: Traffic, sent: seq<bytes>, got: seq<bytes>, broken: bool)

  datatype Side = Left | Right

  /** Both endpoints, the channel towards each of them. */
  datatype System = System(left: Endpoint, right: Endpoint, toRight: seq<Record>, toLeft: seq<Record>)

  /** setTrafficSecret with the next secret: new generation, sequence number reset. */
  function Rekey(next: NextSecret, t: Traffic): Traffic {
    Traffic(next(t.secret), t.gen + 1, 0)
  }

  function Count(t: Traffic): Traffic {
    t.(seqno := t.seqno + 1)
  }

  /** The traffic state after a record with this body: sealing and opening move it the same way. */
  function Past(next: NextSecret, t: Traffic, body: Body): Traffic {
    if body.Update? then Rekey(next, t) else Count(t)
  }

  /** Sealing a record. */
  function Send(next: NextSecret, e: Endpoint, body: Body): (Endpoint, Record) {
    var record := Record(e.send.secret, e.send.seqno, body);
    var e1 := e.(send := Past(next, e.send, body));
    (if body.Data? then e1.(sent := e.sent + [body.data]) else e1, record)
  }

  /** Opening works exactly for the key and sequence number used for sealing. */
  predicate Opens(t: Traffic, r: Record) {
    t.secret == r.secret && t.seqno == r.seqno
  }

  /** Reading one record and, for a KeyUpdate, handleKeyUpdate; the result includes what it writes in reply. */
  function Receive(next: NextSecret, e: Endpoint, r: Record): (Endpoint, seq<Record>) {
    if e.broken || !Opens(e.recv, r) then (e.(broken := true), [])
    else
      match r.body
      case Data(data) => (e.(recv := Count(e.recv), got := e.got + [data]), [])
      case Update(requested) =>
        var e1 := e.(recv := Rekey(next, e.recv));
        if !requested then (e1, [])
        else
          var (e2, reply) := Send(next, e1, Update(false));
          (e2, [reply])
  }

  datatype Action = Write(side: Side, data: bytes) | Initiate(side: Side, requested: bool) | Deliver(side: Side)

  function At(s: System, side: Side): Endpoint {
    if side.Left? then s.left else s.right
  }

  function Towards(s: System, side: Side): seq<Record> {
    if side.Left? then s.toLeft else s.toRight
  }

  /** The state with this side's endpoint replaced, n records taken from its incoming channel and some added to the other. */
  function Change(s: System, side: Side, e: Endpoint, n: nat, out: seq<Record>): System
    requires n <= |Towards(s, side)|
  {
    if side.Left? then System(e, s.right, s.toRight + out, s.toLeft[n..])
    else System(s.left, e, s.toRight[n..], s.toLeft + out)
  }

  predicate Enabled(s: System, a: Action) {
    a.Deliver? ==> Towards(s, a.side) != []
  }

  function Do(next: NextSecret, s: System, a: Action): System
    requires Enabled(s, a)
  {
    match a
    case Write(side, data) =>
      var (e, r) := Send(next, At(s, side), Data(data));
      Change(s, side, e, 0, [r])
    case Initiate(side, requested) =>
      var (e, r) := Send(next, At(s, side), Update(requested));
      Change(s, side, e, 0, [r])
    case Deliver(side) =>
      var (e, out) := Receive(next, At(s, side), Towards(s, side)[0]);
      Change(s, side, e, 1, out)
  }

  /** Right after the handshake: mirrored secrets, fresh sequence numbers, empty channels. */
  predicate Initial(s: System) {
    && s.left.send == s.right.recv && s.right.send == s.left.recv
    && s.left.send.gen == 0 && s.right.send.gen == 0
    && s.toLeft == [] && s.toRight == [] && !s.left.broken && !s.right.broken
    && s.left.sent == s.left.got == s.right.sent == s.right.got == []
  }

  ghost predicate Run(next: NextSecret, ss: seq<System>, acts: seq<Action>) {
    && |ss| == |acts| + 1 && Initial(ss[0])
    && forall i :: 0 <= i < |acts| ==> StepsTo(next, ss[i], acts[i], ss[i + 1])
  }

  ghost predicate StepsTo(next: NextSecret, s: System, a: Action, t: System) {
    Enabled(s, a) && t == Do(next, s, a)
  }

  /** The receiver's state after it has taken in the records of a channel, each opening in turn. */
  predicate Leads(next: NextSecret, t: Traffic, channel: seq<Record>, u: Traffic)
    decreases channel
  {
    if channel == [] then t == u
    else Opens(t, channel[0]) && Leads(next, Past(next, t, channel[0].body), channel[1..], u)
  }

  function DataIn(channel: seq<Record>): seq<bytes> {
    if channel == [] then []
    else (if channel[0].body.Data? then [channel[0].body.data] else []) + DataIn(channel[1..])
  }

  function UpdatesIn(channel: seq<Record>): nat {
    if channel == [] then 0 else (if channel[0].body.Update? then 1 else 0) + UpdatesIn(channel[1..])
  }

  /** What holds of one direction in every reachable state. */
  ghost predicate Coherent(next: NextSecret, sender: Endpoint, channel: seq<Record>, receiver: Endpoint) {
    && Leads(next, receiver.recv, channel, sender.send)
    && receiver.got + DataIn(channel) == sender.sent
  }

  ghost predicate Inv(next: NextSecret, s: System) {
    && Coherent(next, s.left, s.toRight, s.right)
    && Coherent(next, s.right, s.toLeft, s.left)
    && !s.left.broken && !s.right.broken
  }

  lemma {:induction false} LeadsAppend(next: NextSecret, t: Traffic, channel: seq<Record>, u: Traffic, body: Body)
    requires Leads(next, t, channel, u)
    ensures Leads(next, t, channel + [Record(u.secret, u.seqno, body)], Past(next, u, body))
    decreases channel
  {
    var r := Record(u.secret, u.seqno, body);
    if channel == [] {
      assert [r][1..] == [];
    } else {
      LeadsAppend(next, Past(next, t, channel[0].body), channel[1..], u, body);
      assert (channel + [r])[1..] == channel[1..] + [r];
    }
  }

  lemma {:induction false} DataAppend(channel: seq<Record>, r: Record)
    ensures DataIn(channel + [r]) == DataIn(channel) + if r.body.Data? then [r.body.data] else []
  {
    if channel == [] {
      assert [r][1..] == [];
    } else {
      DataAppend(channel[1..], r);
      assert (channel + [r])[1..] == channel[1..] + [r];
    }
  }

  /** Sealing one more record keeps a direction coherent. */
  lemma SendKeeps(next: NextSecret, e: Endpoint, channel: seq<Record>, receiver: Endpoint, body: Body)
    requires Coherent(next, e, channel, receiver)
    ensures var (e1, r) := Send(next, e, body); Coherent(next, e1, channel + [r], receiver)
  {
    var (e1, r) := Send(next, e, body);
    LeadsAppend(next, receiver.recv, channel, e.send, body);
    DataAppend(channel, r);
    assert receiver.got + (DataIn(channel) + if body.Data? then [body.data] else []) == e1.sent;
  }

  /** Receiving opens, keeps the incoming direction coherent, and the reply keeps the other one coherent. */
  lemma ReceiveKeeps(next: NextSecret, sender: Endpoint, channel: seq<Record>, e: Endpoint, back: seq<Record>)
    requires channel != [] && Coherent(next, sender, channel, e) && Coherent(next, e, back, sender) && !e.broken
    ensures Opens(e.recv, channel[0])
    ensures var (e1, out) := Receive(next, e, channel[0]);
            && Coherent(next, sender, channel[1..], e1) && Coherent(next, e1, back + out, sender) && !e1.broken
  {
    var r := channel[0];
    if r.body.Data? {
      assert back + [] == back;
      assert e.got + ([r.body.data] + DataIn(channel[1..])) == e.got + [r.body.data] + DataIn(channel[1..]);
    } else {
      assert e.got + ([] + DataIn(channel[1..])) == e.got + DataIn(channel[1..]);
      var e1 := e.(recv := Rekey(next, e.recv));
      if r.body.requested {
        SendKeeps(next, e1, back, sender, Update(false));
      } else {
        assert back + [] == back;
      }
    }
  }

  lemma DoKeeps(next: NextSecret, s: System, a: Action)
    requires Inv(next, s) && Enabled(s, a)
    ensures Inv(next, Do(next, s, a))
  {
    match a {
      case Write(Left, data) => SendKeeps(next, s.left, s.toRight, s.right, Data(data)); assert s.toLeft[0..] == s.toLeft;
      case Write(Right, data) => SendKeeps(next, s.right, s.toLeft, s.left, Data(data)); assert s.toRight[0..] == s.toRight;
      case Initiate(Left, q) => SendKeeps(next, s.left, s.toRight, s.right, Update(q)); assert s.toLeft[0..] == s.toLeft;
      case Initiate(Right, q) => SendKeeps(next, s.right, s.toLeft, s.left, Update(q)); assert s.toRight[0..] == s.toRight;
      case Deliver(Left) => ReceiveKeeps(next, s.right, s.toLeft, s.left, s.toRight);
      case Deliver(Right) => ReceiveKeeps(next, s.left, s.toRight, s.right, s.toLeft);
    }
  }

  lemma InitialIsCoherent(next: NextSecret, s: System)
    requires Initial(s)
    ensures Inv(next, s)
  {
  }

  lemma StepIsCoherent(next: NextSecret, s: System, a: Action, t: System)
    requires Inv(next, s) && StepsTo(next, s, a, t)
    ensures Inv(next, t)
  {
    DoKeeps(next, s, a);
  }

  /** Every reachable state, under every interleaving, is coherent in both directions and nobody has failed to decrypt. */
  lemma {:induction false} ReachableIsCoherent(next: NextSecret, ss: seq<System>, acts: seq<Action>, n: nat)
    requires Run(next, ss, acts) && n <= |acts|
    ensures Inv(next, ss[n])
  {
    if n == 0 {
      InitialIsCoherent(next, ss[0]);
    } else {
      var m := n - 1;
      ReachableIsCoherent(next, ss, acts, m);
      assert StepsTo(next, ss[m], acts[m], ss[m + 1]);
      StepIsCoherent(next, ss[m], acts[m], ss[m + 1]);
    }
  }

  function Iterate(next: NextSecret, secret: bytes, n: nat): bytes {
    if n == 0 then secret else next(Iterate(next, secret, n - 1))
  }

  /** A traffic state belongs to the chain of secrets that starts at `first`. */
  predicate OnChain(next: NextSecret, first: bytes, t: Traffic) {
    t.secret == Iterate(next, first, t.gen)
  }

  /** The i-th record in flight will meet exactly the key generation and sequence number it was sealed with. */
  lemma {:induction false} InFlightMeetsItsKey(next: NextSecret, first: bytes, t: Traffic, channel: seq<Record>, u: Traffic, i: nat)
    returns (met: Traffic)
    requires Leads(next, t, channel, u) && OnChain(next, first, t) && i <= |channel|
    ensures Leads(next, t, channel[..i], met) && OnChain(next, first, met)
    ensures met.gen == t.gen + UpdatesIn(channel[..i])
    ensures i < |channel| ==> Opens(met, channel[i]) && channel[i].secret == Iterate(next, first, met.gen)
    ensures i == |channel| ==> met == u
    decreases i
  {
    if i == 0 {
      return t;
    }
    met := InFlightMeetsItsKey(next, first, Past(next, t, channel[0].body), channel[1..], u, i - 1);
    assert channel[..i][1..] == channel[1..][..i - 1];
  }

  lemma {:induction false} GenerationStays(next: NextSecret, ss: seq<System>, acts: seq<Action>, n: nat)
    requires Run(next, ss, acts) && n <= |acts|
    ensures OnChain(next, ss[0].left.send.secret, ss[n].right.recv)
    ensures OnChain(next, ss[0].right.send.secret, ss[n].left.recv)
  {
    if n > 0 {
      GenerationStays(next, ss, acts, n - 1);
      var m := n - 1;
      assert StepsTo(next, ss[m], acts[m], ss[m + 1]);
    }
  }

  /**
   * The KeyUpdate theorem, for each direction and every reachable state: the sender is ahead of the
   * receiver by exactly the KeyUpdates in flight, both are on the same chain of secrets, and the i-th
   * record in flight was sealed under the secret and the sequence number of the state `met` the receiver
   * will be in when it has read the records before it.
   */
  lemma GenerationsInStep(next: NextSecret, ss: seq<System>, acts: seq<Action>, n: nat, to: Side, i: nat) returns (met: Traffic)
    requires Run(next, ss, acts) && n <= |acts|
    requires i <= |Towards(ss[n], to)|
    ensures var (s, first) := (ss[n], At(ss[0], if to.Left? then Right else Left).send.secret);
            var (sender, receiver, channel) := (At(s, if to.Left? then Right else Left), At(s, to), Towards(s, to));
            && sender.send.gen == receiver.recv.gen + UpdatesIn(channel)
            && OnChain(next, first, sender.send) && OnChain(next, first, receiver.recv)
            && Leads(next, receiver.recv, channel[..i], met) && met.gen == receiver.recv.gen + UpdatesIn(channel[..i])
            && (i < |channel| ==> Opens(met, channel[i]) && channel[i].secret == Iterate(next, first, met.gen))
            && (i == |channel| ==> met == sender.send)
            && receiver.got + DataIn(channel) == sender.sent
  {
    ReachableIsCoherent(next, ss, acts, n);
    GenerationStays(next, ss, acts, n);
    var (s, first) := (ss[n], At(ss[0], if to.Left? then Right else Left).send.secret);
    var (sender, receiver, channel) := (At(s, if to.Left? then Right else Left), At(s, to), Towards(s, to));
    met := InFlightMeetsItsKey(next, first, receiver.recv, channel, sender.send, i);
    var _ := InFlightMeetsItsKey(next, first, receiver.recv, channel, sender.send, |channel|);
    assert channel[..|channel|] == channel;
  }

  function Other(side: Side): Side {
    if side.Left? then Right else Left
  }

  /** How often a side started an update of its own, and how often it asked for one in return. */
  function Initiated(acts: seq<Action>, side: Side, requested: bool): nat {
    if acts == [] then 0
    else
      var (front, a) := (acts[..|acts| - 1], acts[|acts| - 1]);
      Initiated(front, side, requested) + if a.Initiate? && a.side == side && (requested ==> a.requested) then 1 else 0
  }

  /** Requests for an update that are still on their way. */
  function RequestsIn(channel: seq<Record>): nat {
    if channel == [] then 0
    else (if channel[0].body.Update? && channel[0].body.requested then 1 else 0) + RequestsIn(channel[1..])
  }

  lemma {:induction false} RequestsAppend(channel: seq<Record>, r: Record)
    ensures RequestsIn(channel + [r]) == RequestsIn(channel) + if r.body.Update? && r.body.requested then 1 else 0
  {
    if channel == [] {
      assert [r][1..] == [];
    } else {
      RequestsAppend(channel[1..], r);
      assert (channel + [r])[1..] == channel[1..] + [r];
    }
  }

  /** Generations and requests of one side that one step accounts for. */
  function Due(s: System, side: Side): nat {
    At(s, side).send.gen + RequestsIn(Towards(s, side))
  }

  function DueBy(a: Action, side: Side): nat {
    if a.Initiate? && (a.side == side || a.requested) then 1 else 0
  }

  /** The acting side's account takes in its own new state, the other's what was sent to it. */
  lemma ChangedDue(s: System, actor: Side, e: Endpoint, n: nat, out: seq<Record>, side: Side)
    requires n <= |Towards(s, actor)|
    ensures Due(Change(s, actor, e, n, out), side)
         == if side == actor then e.send.gen + RequestsIn(Towards(s, actor)[n..])
            else At(s, side).send.gen + RequestsIn(Towards(s, side) + out)
  {
  }

  lemma SentDue(next: NextSecret, s: System, actor: Side, body: Body, side: Side)
    ensures var (e, r) := Send(next, At(s, actor), body);
            Due(Change(s, actor, e, 0, [r]), side) == Due(s, side) + if body.Update? && (actor == side || body.requested) then 1 else 0
  {
    var (e, r) := Send(next, At(s, actor), body);
    ChangedDue(s, actor, e, 0, [r], side);
    RequestsAppend(Towards(s, side), r);
    assert Towards(s, actor)[0..] == Towards(s, actor);
  }

  lemma DeliveredDue(next: NextSecret, s: System, actor: Side, side: Side)
    requires Inv(next, s) && Towards(s, actor) != []
    ensures var (e, out) := Receive(next, At(s, actor), Towards(s, actor)[0]);
            Due(Change(s, actor, e, 1, out), side) == Due(s, side)
  {
    var (r, back) := (Towards(s, actor)[0], Towards(s, side));
    var (e, out) := Receive(next, At(s, actor), r);
    ChangedDue(s, actor, e, 1, out, side);
    assert Opens(At(s, actor).recv, r);
    if r.body.Update? && r.body.requested {
      RequestsAppend(back, out[0]);
      assert out == [out[0]];
    } else {
      assert back + out == back;
    }
  }

  lemma DueStep(next: NextSecret, s: System, a: Action, side: Side)
    requires Inv(next, s) && Enabled(s, a)
    ensures Due(Do(next, s, a), side) == Due(s, side) + DueBy(a, side)
  {
    match a {
      case Write(actor, data) => SentDue(next, s, actor, Data(data), side);
      case Initiate(actor, q) => SentDue(next, s, actor, Update(q), side);
      case Deliver(actor) => DeliveredDue(next, s, actor, side);
    }
  }

  /**
   * Every request is answered once, when it arrives, and nothing else makes a side rekey: in every reachable
   * state a side's generation and the requests still on their way to it add up to the updates it started and
   * the updates its peer asked for. Replies ask for nothing, so no update is ever answered twice.
   */
  lemma {:induction false} EveryRequestAnsweredOnce(next: NextSecret, ss: seq<System>, acts: seq<Action>, n: nat, side: Side)
    requires Run(next, ss, acts) && n <= |acts|
    ensures At(ss[n], side).send.gen + RequestsIn(Towards(ss[n], side))
         == Initiated(acts[..n], side, false) + Initiated(acts[..n], Other(side), true)
  {
    if n > 0 {
      var m := n - 1;
      EveryRequestAnsweredOnce(next, ss, acts, m, side);
      ReachableIsCoherent(next, ss, acts, m);
      assert StepsTo(next, ss[m], acts[m], ss[m + 1]);
      DueStep(next, ss[m], acts[m], side);
      assert acts[..n][..m] == acts[..m];
    }
  }

  /** One more record under the same secret, or the next secret from its first record on, or nothing. */
  predicate Advances(next: NextSecret, t: Traffic, u: Traffic) {
    || u == t
    || (u.secret == t.secret && u.gen == t.gen && u.seqno == t.seqno + 1)
    || (u.secret == next(t.secret) && u.gen == t.gen + 1 && u.seqno == 0)
  }

  lemma StepAdvances(next: NextSecret, s: System, a: Action, side: Side)
    requires Enabled(s, a)
    ensures var (e, e1) := (At(s, side), At(Do(next, s, a), side));
            Advances(next, e.send, e1.send) && Advances(next, e.recv, e1.recv)
  {
  }

  /** An earlier key or, under the same key, an earlier sequence number. */
  predicate Precedes(t: Traffic, u: Traffic) {
    t.gen < u.gen || (t.gen == u.gen && t.secret == u.secret && t.seqno < u.seqno)
  }

  lemma SendingPrecedes(next: NextSecret, e: Endpoint, body: Body)
    ensures var (e1, r) := Send(next, e, body);
            Precedes(e.send, e1.send) && r.secret == e.send.secret && r.seqno == e.send.seqno && (body.Update? ==> e1.send.seqno == 0)
  {
  }

  /** Along every run a side's sending state only moves forward. */
  lemma {:induction false} NumbersGrow(next: NextSecret, ss: seq<System>, acts: seq<Action>, m: nat, n: nat, side: Side)
    requires Run(next, ss, acts) && m <= n <= |acts|
    ensures var (t, u) := (At(ss[m], side).send, At(ss[n], side).send); t == u || Precedes(t, u)
    decreases n - m
  {
    if m < n {
      NumbersGrow(next, ss, acts, m, n - 1, side);
      assert StepsTo(next, ss[n - 1], acts[n - 1], ss[n - 1 + 1]);
      StepAdvances(next, ss[n - 1], acts[n - 1], side);
    }
  }

  /**
   * No side ever seals two records under the same key and sequence number, across any number of updates: when
   * it has sealed at step m, every later state it seals from comes strictly after the one it used.
   */
  lemma NumbersNeverReturn(next: NextSecret, ss: seq<System>, acts: seq<Action>, m: nat, n: nat, side: Side)
    requires Run(next, ss, acts) && m < n <= |acts| && At(ss[m + 1], side).send != At(ss[m], side).send
    ensures Precedes(At(ss[m], side).send, At(ss[n], side).send)
  {
    assert StepsTo(next, ss[m], acts[m], ss[m + 1]);
    StepAdvances(next, ss[m], acts[m], side);
    NumbersGrow(next, ss, acts, m + 1, n, side);
  }
}
