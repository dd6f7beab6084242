/**
 * common.go and ticket.go: automatic session ticket keys, their rotation by concurrent callers, and
 * the tickets sealed under them.
 */
module TicketKeys {
  import opened Bytes

  /** 24 hours and 7 days, in seconds. */
  const ROTATION := 86400
  const LIFETIME := 7 * ROTATION

  /** Key names have 16 octets. */
  type Name = b: bytes | |b| == 16 witness Repeat(0, 16)

  datatype Key = Key(name: Name, aesKey: bytes, hmacKey: bytes, created: int)

  /** autoSessionTicketKeys: the first one seals. */
  type Ring = seq<Key>

  predicate FreshEnough(keys: Ring, now: int) {
    keys != [] && now - keys[0].created < ROTATION
  }

  predicate Alive(k: Key, now: int) {
    now - k.created < LIFETIME
  }

  /** The keys that are not expired, each checked against a reading of the clock of its own. */
  function Unexpired(keys: Ring, checks: seq<int>): Ring
    requires |checks| == |keys|
  {
    if keys == [] then []
    else (if Alive(keys[0], checks[0]) then [keys[0]] else []) + Unexpired(keys[1..], checks[1..])
  }

  /** A clock that does not go back. */
  predicate Monotone(from: int, readings: seq<int>) {
    forall i :: 0 <= i < |readings| ==> from <= readings[i] && (i > 0 ==> readings[i - 1] <= readings[i])
  }

  function LastReading(from: int, readings: seq<int>): int {
    if readings == [] then from else readings[|readings| - 1]
  }

  /** Newest first, at least a rotation apart. */
  predicate Spaced(keys: Ring) {
    forall i :: 0 <= i < |keys| - 1 ==> keys[i].created - keys[i + 1].created >= ROTATION
  }

  lemma {:induction false} SpacedApart(keys: Ring, i: nat, j: nat)
    requires Spaced(keys) && i <= j < |keys|
    ensures keys[i].created - keys[j].created >= (j - i) * ROTATION
    decreases j - i
  {
    if i < j {
      SpacedApart(keys, i, j - 1);
      assert keys[j - 1].created - keys[j - 1 + 1].created >= ROTATION;
    }
  }

  lemma {:induction false} NoneAlive(keys: Ring, checks: seq<int>)
    requires |checks| == |keys| && forall i :: 0 <= i < |keys| ==> !Alive(keys[i], checks[i])
    ensures Unexpired(keys, checks) == []
  {
    if keys != [] {
      NoneAlive(keys[1..], checks[1..]);
    }
  }

  /** Dropping expired keys drops a tail of the ring. */
  lemma {:induction false} UnexpiredIsPrefix(keys: Ring, from: int, checks: seq<int>) returns (n: nat)
    requires |checks| == |keys| && Spaced(keys) && Monotone(from, checks)
    ensures n <= |keys| && Unexpired(keys, checks) == keys[..n]
    ensures forall i :: 0 <= i < n ==> Alive(keys[i], checks[i])
    ensures forall i :: n <= i < |keys| ==> !Alive(keys[i], checks[i])
    decreases |keys|
  {
    if keys == [] {
      return 0;
    }
    if !Alive(keys[0], checks[0]) {
      forall i | 0 <= i < |keys|
        ensures !Alive(keys[i], checks[i])
      {
        SpacedApart(keys, 0, i);
        MonotoneApart(from, checks, i);
      }
      NoneAlive(keys, checks);
      return 0;
    }
    assert forall i :: 0 <= i < |keys| - 1 ==> keys[1..][i] == keys[i + 1] && checks[1..][i] == checks[i + 1];
    var m := UnexpiredIsPrefix(keys[1..], from, checks[1..]);
    n := m + 1;
    assert keys[..n] == [keys[0]] + keys[1..][..m];
    forall i | 0 <= i < |keys|
      ensures i < n <==> Alive(keys[i], checks[i])
    {
      if i > 0 {
        assert keys[i] == keys[1..][i - 1] && checks[i] == checks[1..][i - 1];
      }
    }
  }

  lemma {:induction false} MonotoneApart(from: int, readings: seq<int>, i: nat)
    requires Monotone(from, readings) && i < |readings|
    ensures readings[0] <= readings[i] <= LastReading(from, readings)
    decreases i
  {
    if i > 0 {
      MonotoneApart(from, readings, i - 1);
    }
    ToLast(from, readings, i);
  }

  lemma {:induction false} ToLast(from: int, readings: seq<int>, i: nat)
    requires Monotone(from, readings) && i < |readings|
    ensures readings[i] <= LastReading(from, readings)
    decreases |readings| - i
  {
    if i + 1 < |readings| {
      ToLast(from, readings, i + 1);
    }
  }

  type Caller = nat

  /** A call of ticketKeys: between its read section and its write section, or back with the keys. */
  datatype Phase =
    | Upgrading
    | Returned(ring: Ring, rotations: nat, at: int)

  /** `history` holds every key ever created, newest first. */
  datatype System = System(clock: int, keys: Ring, history: Ring, callers: map<Caller, Phase>)

  datatype Action =
    | Tick(now: int)
    | Look(looker: Caller)
    | Rotate(rotator: Caller, created: int, name: Name, aesKey: bytes, hmacKey: bytes, checks: seq<int>)

  const START := System(0, [], [], map[])

  predicate FreshName(history: Ring, name: bytes) {
    forall i :: 0 <= i < |history| ==> history[i].name != name
  }

  /** Actions are the sections under one lock; they interleave freely, and the clock may move between them. */
  predicate Enabled(s: System, a: Action) {
    match a
    case Tick(now) => s.clock <= now
    case Look(c) => c !in s.callers
    case Rotate(c, created, name, _, _, checks) =>
      && c in s.callers && s.callers[c].Upgrading? && s.clock <= created
      && |checks| == |s.keys| && Monotone(created, checks) && FreshName(s.history, name)
  }

  function Return(s: System, c: Caller): System {
    s.(callers := s.callers[c := Returned(s.keys, |s.history|, s.clock)])
  }

  /** The write section when the condition still holds: a new key in front, expired ones out. */
  function WithNewKey(s: System, k: Key, checks: seq<int>): System
    requires |checks| == |s.keys|
  {
    s.(clock := LastReading(k.created, checks), keys := [k] + Unexpired(s.keys, checks), history := [k] + s.history)
  }

  function Step(s: System, a: Action): System
    requires Enabled(s, a)
  {
    match a
    case Tick(now) => s.(clock := now)
    case Look(c) => if FreshEnough(s.keys, s.clock) then Return(s, c) else s.(callers := s.callers[c := Upgrading])
    case Rotate(c, created, name, aesKey, hmacKey, checks) =>
      if FreshEnough(s.keys, s.clock) then Return(s, c)
      else Return(WithNewKey(s, Key(name, aesKey, hmacKey, created), checks), c)
  }

  predicate DistinctNames(history: Ring) {
    forall i, j :: 0 <= i < j < |history| ==> history[i].name != history[j].name
  }

  /** A ring that holds the newest keys of a history and leaves out only expired ones. */
  ghost predicate Covers(history: Ring, ring: Ring, at: int) {
    && 0 < |ring| <= |history| && ring == history[..|ring|]
    && forall i :: |ring| <= i < |history| ==> !Alive(history[i], at)
  }

  /** A ring seen after so many rotations, against the history of today. */
  ghost predicate WindowOf(history: Ring, ring: Ring, rotations: nat, at: int) {
    rotations <= |history| && Covers(history[|history| - rotations..], ring, at)
  }

  ghost predicate KeysInv(s: System) {
    && Spaced(s.history) && DistinctNames(s.history) && |s.keys| <= 7
    && (s.history == [] <==> s.keys == [])
    && (s.history != [] ==> s.history[0].created <= s.clock && Covers(s.history, s.keys, s.clock))
  }

  ghost predicate CallersInv(s: System) {
    forall c :: c in s.callers && s.callers[c].Returned? ==>
      WindowOf(s.history, s.callers[c].ring, s.callers[c].rotations, s.callers[c].at)
  }

  ghost predicate Inv(s: System) {
    KeysInv(s) && CallersInv(s)
  }

  lemma WindowGrows(history: Ring, k: Key, ring: Ring, rotations: nat, at: int)
    requires WindowOf(history, ring, rotations, at)
    ensures WindowOf([k] + history, ring, rotations, at)
  {
    var h := [k] + history;
    assert h[|h| - rotations..] == history[|history| - rotations..];
  }

  /** A rotation: the ring stays a window of the history, and at most seven keys fit, a day apart and younger than seven. */
  lemma NewWindow(s: System, k: Key, checks: seq<int>)
    requires KeysInv(s) && !FreshEnough(s.keys, s.clock) && s.clock <= k.created
    requires |checks| == |s.keys| && Monotone(k.created, checks)
    ensures var s1 := WithNewKey(s, k, checks);
            && s.clock <= s1.clock && k.created <= s1.clock && |s1.keys| <= 7 && Spaced(s1.history)
            && Covers(s1.history, s1.keys, s1.clock)
  {
    var s1 := WithNewKey(s, k, checks);
    KeysAreSpaced(s);
    var n := UnexpiredIsPrefix(s.keys, k.created, checks);
    NewHistorySpaced(s, k);
    if checks != [] {
      MonotoneApart(k.created, checks, 0);
    }
    assert s1.keys == [k] + s.keys[..n];
    if n > 0 {
      assert s1.keys[n] == s.keys[n - 1];
      MonotoneApart(k.created, checks, n - 1);
      SpacedApart(s1.history, 0, n);
      assert s1.history[n] == s.history[n - 1] == s.keys[n - 1];
    }
    RestExpired(s, k, checks, n);
  }

  lemma KeysAreSpaced(s: System)
    requires KeysInv(s)
    ensures Spaced(s.keys) && |s.keys| <= |s.history| && s.keys == s.history[..|s.keys|]
  {
  }

  lemma NewHistorySpaced(s: System, k: Key)
    requires KeysInv(s) && !FreshEnough(s.keys, s.clock) && s.clock <= k.created
    ensures Spaced([k] + s.history)
  {
    var h := [k] + s.history;
    KeysAreSpaced(s);
    forall i | 0 <= i < |h| - 1
      ensures h[i].created - h[i + 1].created >= ROTATION
    {
      if i > 0 {
        assert h[i] == s.history[i - 1] && h[i + 1] == s.history[i - 1 + 1];
      }
    }
  }

  lemma RestExpired(s: System, k: Key, checks: seq<int>, n: nat)
    requires KeysInv(s) && |checks| == |s.keys| && Monotone(k.created, checks) && s.clock <= k.created && n <= |s.keys|
    requires forall i :: n <= i < |s.keys| ==> !Alive(s.keys[i], checks[i])
    ensures forall i :: n + 1 <= i < |s.history| + 1 ==> !Alive(([k] + s.history)[i], LastReading(k.created, checks))
  {
    KeysAreSpaced(s);
    if checks != [] {
      MonotoneApart(k.created, checks, 0);
    }
    forall i | n + 1 <= i < |s.history| + 1
      ensures !Alive(([k] + s.history)[i], LastReading(k.created, checks))
    {
      if i - 1 < |s.keys| {
        MonotoneApart(k.created, checks, i - 1);
      } else {
        assert !Alive(s.history[i - 1], s.clock);
      }
    }
  }

  lemma RotationKeepsKeysInv(s: System, k: Key, checks: seq<int>)
    requires KeysInv(s) && !FreshEnough(s.keys, s.clock) && s.clock <= k.created && FreshName(s.history, k.name)
    requires |checks| == |s.keys| && Monotone(k.created, checks)
    ensures KeysInv(WithNewKey(s, k, checks))
  {
    NewWindow(s, k, checks);
    var h := [k] + s.history;
    assert forall i :: 0 < i < |h| ==> h[i] == s.history[i - 1];
  }

  lemma ReturnKeepsInv(s: System, c: Caller)
    requires Inv(s) && s.history != []
    ensures Inv(Return(s, c))
  {
    assert s.history[0..] == s.history;
  }

  lemma StepKeepsInv(s: System, a: Action)
    requires Inv(s) && Enabled(s, a)
    ensures Inv(Step(s, a))
    ensures |s.history| <= |Step(s, a).history| <= |s.history| + 1
  {
    match a
    case Tick(now) =>
    case Look(c) =>
      if FreshEnough(s.keys, s.clock) {
        ReturnKeepsInv(s, c);
      }
    case Rotate(c, created, name, aesKey, hmacKey, checks) =>
      if FreshEnough(s.keys, s.clock) {
        ReturnKeepsInv(s, c);
      } else {
        var k := Key(name, aesKey, hmacKey, created);
        RotationKeepsKeysInv(s, k, checks);
        RotationKeepsCallersInv(s, k, checks);
        ReturnKeepsInv(WithNewKey(s, k, checks), c);
      }
  }

  lemma RotationKeepsCallersInv(s: System, k: Key, checks: seq<int>)
    requires CallersInv(s) && |checks| == |s.keys|
    ensures CallersInv(WithNewKey(s, k, checks))
  {
    forall c | c in s.callers && s.callers[c].Returned?
      ensures WindowOf([k] + s.history, s.callers[c].ring, s.callers[c].rotations, s.callers[c].at)
    {
      WindowGrows(s.history, k, s.callers[c].ring, s.callers[c].rotations, s.callers[c].at);
    }
  }

  /** Runs: states linked by enabled actions. */
  ghost predicate StepsTo(s: System, a: Action, s1: System) {
    Enabled(s, a) && s1 == Step(s, a)
  }

  ghost predicate Run(ss: seq<System>, actions: seq<Action>) {
    && |ss| == |actions| + 1 && ss[0] == START
    && forall i :: 0 <= i < |actions| ==> StepsTo(ss[i], actions[i], ss[i + 1])
  }

  /** In every run, in every state: creation times at least a day apart, at most seven keys, and windows. */
  lemma {:induction false} ReachableInv(ss: seq<System>, actions: seq<Action>, i: nat)
    requires Run(ss, actions) && i < |ss|
    ensures Inv(ss[i])
  {
    if i > 0 {
      ReachableInv(ss, actions, i - 1);
      assert StepsTo(ss[i - 1], actions[i - 1], ss[i - 1 + 1]);
      StepKeepsInv(ss[i - 1], actions[i - 1]);
    }
  }

  /** What auto-rotation promises of the ring in every state of every run. */
  lemma RingWellKept(ss: seq<System>, actions: seq<Action>, i: nat)
    requires Run(ss, actions) && i < |ss|
    ensures |ss[i].keys| <= 7
    ensures forall j, k :: 0 <= j < k < |ss[i].keys| ==> ss[i].keys[j].created - ss[i].keys[k].created >= ROTATION
  {
    ReachableInv(ss, actions, i);
    KeysAreSpaced(ss[i]);
    forall j, k | 0 <= j < k < |ss[i].keys|
      ensures ss[i].keys[j].created - ss[i].keys[k].created >= ROTATION
    {
      SpacedApart(ss[i].keys, j, k);
    }
  }

  predicate Rotates(s: System, s1: System) {
    s1.history != s.history
  }

  lemma {:induction false} HistoryKept(ss: seq<System>, actions: seq<Action>, i: nat, j: nat)
    requires Run(ss, actions) && i <= j < |ss|
    ensures |ss[i].history| <= |ss[j].history| && ss[j].history[|ss[j].history| - |ss[i].history|..] == ss[i].history
    decreases j
  {
    if i < j {
      HistoryKept(ss, actions, i, j - 1);
      assert StepsTo(ss[j - 1], actions[j - 1], ss[j - 1 + 1]);
    }
  }

  /** However many callers saw the same stale key, two rotations are at least a day apart. */
  lemma OneRotationPerStaleness(ss: seq<System>, actions: seq<Action>, i: nat, j: nat)
    requires Run(ss, actions) && i < j < |actions| && Rotates(ss[i], ss[i + 1]) && Rotates(ss[j], ss[j + 1])
    ensures actions[i].Rotate? && actions[j].Rotate? && actions[j].created - actions[i].created >= ROTATION
  {
    assert StepsTo(ss[i], actions[i], ss[i + 1]) && StepsTo(ss[j], actions[j], ss[j + 1]);
    HistoryKept(ss, actions, i + 1, j);
    ReachableInv(ss, actions, j + 1);
    var (h, n) := (ss[j + 1].history, |ss[j].history| - |ss[i + 1].history|);
    assert h[1..] == ss[j].history;
    assert ss[j].history[n] == ss[i + 1].history[0];
    SpacedApart(h, 0, n + 1);
  }

  /** Config with its ticket keys: the two locked sections of ticketKeys. */
  class Config {
    var autoSessionTicketKeys: Ring

    constructor ()
      ensures autoSessionTicketKeys == []
    {
      autoSessionTicketKeys := [];
    }

    /** The fast path, under the read lock. */
    method Peek(now: int) returns (r: Option<Ring>)
      ensures r == if FreshEnough(autoSessionTicketKeys, now) then Some(autoSessionTicketKeys) else None
    {
      if |autoSessionTicketKeys| > 0 && now - autoSessionTicketKeys[0].created < ROTATION {
        return Some(autoSessionTicketKeys);
      }
      return None;
    }

    /** The slow path, under the write lock: check again, then rotate. */
    method RotateIfStale(now: int, newKey: Key, checks: seq<int>) returns (r: Ring)
      requires |checks| == |autoSessionTicketKeys|
      modifies this
      ensures r == autoSessionTicketKeys
      ensures r == if FreshEnough(old(autoSessionTicketKeys), now) then old(autoSessionTicketKeys)
                   else [newKey] + Unexpired(old(autoSessionTicketKeys), checks)
    {
      if |autoSessionTicketKeys| == 0 || now - autoSessionTicketKeys[0].created >= ROTATION {
        var keys := autoSessionTicketKeys;
        var valid := [newKey];
        for i := 0 to |keys|
          invariant valid + Unexpired(keys[i..], checks[i..]) == [newKey] + Unexpired(keys, checks)
        {
          assert keys[i..][1..] == keys[i + 1..] && checks[i..][1..] == checks[i + 1..];
          if checks[i] - keys[i].created < LIFETIME {
            valid := valid + [keys[i]];
          }
        }
        autoSessionTicketKeys := valid;
      }
      return autoSessionTicketKeys;
    }

    /**
     * A whole call of ticketKeys with no other caller in between: the keys it returns start with one less
     * than a day old, keep all that are younger than seven days, and stay in order.
     */
    method TicketKeys(now: int, later: int, newKey: Key, checks: seq<int>) returns (r: Ring)
      requires Kept(autoSessionTicketKeys, now) && now <= later <= newKey.created
      requires |checks| == |autoSessionTicketKeys| && Monotone(newKey.created, checks)
      modifies this
      ensures r == autoSessionTicketKeys && r != [] && now - r[0].created < ROTATION
      ensures Kept(r, LastReading(newKey.created, checks))
      ensures forall k :: k in old(autoSessionTicketKeys) && Alive(k, LastReading(newKey.created, checks)) ==> k in r
    {
      if checks != [] {
        MonotoneApart(newKey.created, checks, 0);
      }
      var fresh_ := Peek(now);
      if fresh_.Some? {
        return fresh_.value;
      }
      if !FreshEnough(autoSessionTicketKeys, later) {
        NewRing(autoSessionTicketKeys, later, newKey, checks);
      }
      r := RotateIfStale(later, newKey, checks);
    }
  }

  /** What a Config keeps of its ring: newest first, a day apart, at most seven, none from the future. */
  predicate Kept(keys: Ring, now: int) {
    Spaced(keys) && |keys| <= 7 && (keys != [] ==> keys[0].created <= now)
  }

  lemma NewRing(keys: Ring, now: int, k: Key, checks: seq<int>)
    requires Spaced(keys) && !FreshEnough(keys, now) && now <= k.created && |checks| == |keys| && Monotone(k.created, checks)
    ensures Kept([k] + Unexpired(keys, checks), LastReading(k.created, checks))
    ensures forall x :: x in keys && Alive(x, LastReading(k.created, checks)) ==> x in Unexpired(keys, checks)
  {
    var last := LastReading(k.created, checks);
    if checks != [] {
      MonotoneApart(k.created, checks, 0);
    }
    var n := UnexpiredIsPrefix(keys, k.created, checks);
    var ring := [k] + keys[..n];
    assert Spaced(ring) by {
      forall i | 0 <= i < |ring| - 1
        ensures ring[i].created - ring[i + 1].created >= ROTATION
      {
        assert i > 0 ==> ring[i] == keys[i - 1] && ring[i + 1] == keys[i - 1 + 1];
      }
    }
    if n > 0 {
      SpacedApart(ring, 0, n);
      MonotoneApart(k.created, checks, n - 1);
    }
    forall x | x in keys && Alive(x, last)
      ensures x in keys[..n]
    {
      var i :| 0 <= i < |keys| && keys[i] == x;
      MonotoneApart(k.created, checks, i);
      assert Alive(keys[i], checks[i]);
      assert keys[..n][i] == x;
    }
  }
}
