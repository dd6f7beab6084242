/** What the LRU session cache promises over every history of calls. */
module LruHistory {
  import opened Bytes
  import opened LruCache

  datatype Call = Get(key: Key) | Put(key: Key, state: Option<Session>)

  function Apply(items: Items, capacity: nat, call: Call): Items
    requires capacity > 0
  {
    match call
    case Get(key) => GetItems(items, key)
    case Put(key, state) => PutItems(items, capacity, key, state)
  }

  /** The cache after a history of calls on a new cache. */
  function After(calls: seq<Call>, capacity: nat): Items
    requires capacity > 0
  {
    if calls == [] then [] else Apply(After(calls[..|calls| - 1], capacity), capacity, calls[|calls| - 1])
  }

  /** What a call does to recency: a hit or a store touches its key, a nil Put of a held key deletes it. */
  datatype Event = Touches(key: Key) | Deletes(key: Key) | NoEvent

  function EventOf(items: Items, call: Call): Event {
    match call
    case Get(key) => if IndexOf(items, key) < |items| then Touches(key) else NoEvent
    case Put(key, state) => if state.None? && IndexOf(items, key) < |items| then Deletes(key) else Touches(key)
  }

  /** None if key was never touched, or deleted since; otherwise the other keys touched since its last touch. */
  function Since(calls: seq<Call>, capacity: nat, key: Key): Option<set<Key>>
    requires capacity > 0
  {
    if calls == [] then None
    else
      var front := calls[..|calls| - 1];
      Extend(Since(front, capacity, key), EventOf(After(front, capacity), calls[|calls| - 1]), key)
  }

  function Extend(since: Option<set<Key>>, event: Event, key: Key): Option<set<Key>> {
    match event
    case NoEvent => since
    case Deletes(k) => if k == key then None else since
    case Touches(k) => if k == key then Some({}) else if since.None? then None else Some(since.value + {k})
  }

  function KeysOf(items: Items): set<Key> {
    set i | 0 <= i < |items| :: items[i].key
  }

  /** What a touching call leaves behind the touched entry. */
  function Rest(items: Items, capacity: nat, key: Key): Items
    requires capacity > 0
  {
    var i := IndexOf(items, key);
    if i < |items| then Without(items, i)
    else if |items| < capacity then items
    else items[..|items| - 1]
  }

  lemma TouchedShape(items: Items, capacity: nat, call: Call)
    requires capacity > 0 && |items| <= capacity && EventOf(items, call).Touches?
    ensures var r := Apply(items, capacity, call);
            r != [] && r[0].key == call.key && r[1..] == Rest(items, capacity, call.key)
  {
  }

  /** Facts about one state of the cache and a record `since` of what was touched after each key. */
  ghost predicate Tracks(items: Items, capacity: nat, since: Key -> Option<set<Key>>) {
    && |items| <= capacity && Distinct(items)
    && (forall i :: 0 <= i < |items| ==> Behind(items, since, i))
    && (forall key :: since(key).Some? && IndexOf(items, key) == |items| ==> |since(key).value| >= capacity)
  }

  /** All keys in front of the i-th were touched after it. */
  ghost predicate Behind(items: Items, since: Key -> Option<set<Key>>, i: nat)
    requires i < |items|
  {
    since(items[i].key).Some? && KeysOf(items[..i]) <= since(items[i].key).value
  }

  /** Without deletions, exactly the keys in front were. */
  ghost predicate Exact(items: Items, since: Key -> Option<set<Key>>) {
    forall i :: 0 <= i < |items| ==> since(items[i].key) == Some(KeysOf(items[..i]))
  }

  lemma {:induction false} DistinctKeysCount(items: Items)
    requires Distinct(items)
    ensures |KeysOf(items)| == |items|
  {
    if items != [] {
      var n := |items| - 1;
      DistinctKeysCount(items[..n]);
      assert KeysOf(items) == KeysOf(items[..n]) + {items[n].key};
      assert items[n].key !in KeysOf(items[..n]);
    }
  }

  /** Where an entry of the rest was before. */
  function Origin(items: Items, key: Key, j: nat): nat {
    if IndexOf(items, key) < |items| && j >= IndexOf(items, key) then j + 1 else j
  }

  lemma RestPosition(items: Items, capacity: nat, key: Key, j: nat)
    requires capacity > 0 && Distinct(items) && j < |Rest(items, capacity, key)|
    ensures Origin(items, key, j) < |items| && Rest(items, capacity, key)[j] == items[Origin(items, key, j)]
    ensures Rest(items, capacity, key)[j].key != key
  {
    var i := IndexOf(items, key);
    if i < |items| {
      WithoutAt(items, i, j);
    }
  }

  lemma WithoutAt(items: Items, i: nat, j: nat)
    requires i < |items| && j < |items| - 1
    ensures Without(items, i)[j] == items[if j < i then j else j + 1]
  {
  }

  lemma RestPositions(items: Items, capacity: nat, key: Key)
    requires capacity > 0 && Distinct(items)
    ensures var r := Rest(items, capacity, key);
            && Distinct(r)
            && forall j :: 0 <= j < |r| ==> Origin(items, key, j) < |items| && r[j] == items[Origin(items, key, j)] && r[j].key != key
  {
    var r := Rest(items, capacity, key);
    forall j | 0 <= j < |r|
      ensures Origin(items, key, j) < |items| && r[j] == items[Origin(items, key, j)] && r[j].key != key
    {
      RestPosition(items, capacity, key, j);
    }
  }

  lemma KeyIn(items: Items, i: nat)
    requires i < |items|
    ensures items[i].key in KeysOf(items)
  {
  }

  lemma KeyAt(items: Items, k: Key) returns (i: nat)
    requires k in KeysOf(items)
    ensures i < |items| && items[i].key == k
  {
    i :| 0 <= i < |items| && items[i].key == k;
  }

  /** Entries in front of a rest entry were in front of it before. */
  lemma FrontKept(items: Items, capacity: nat, key: Key, j: nat, k: Key)
    requires capacity > 0 && Distinct(items) && j < |Rest(items, capacity, key)| && k in KeysOf(Rest(items, capacity, key)[..j])
    ensures Origin(items, key, j) <= |items| && k != key && k in KeysOf(items[..Origin(items, key, j)])
  {
    var y := KeyAt(Rest(items, capacity, key)[..j], k);
    RestPosition(items, capacity, key, y);
    RestPosition(items, capacity, key, j);
    KeyIn(items[..Origin(items, key, j)], Origin(items, key, y));
  }

  /** Where the x-th entry goes. */
  lemma OriginOf(items: Items, key: Key, x: nat, j: nat) returns (y: nat)
    requires x < |items| && items[x].key != key && x < Origin(items, key, j)
    ensures y < j && Origin(items, key, y) == x
  {
    var i := IndexOf(items, key);
    y := if i < x then x - 1 else x;
  }

  /** And all that were are, but for the touched one. */
  lemma FrontComplete(items: Items, capacity: nat, key: Key, j: nat, k: Key)
    requires capacity > 0 && Distinct(items) && j < |Rest(items, capacity, key)|
    requires Origin(items, key, j) <= |items| && k in KeysOf(items[..Origin(items, key, j)]) && k != key
    ensures k in KeysOf(Rest(items, capacity, key)[..j])
  {
    var x := KeyAt(items[..Origin(items, key, j)], k);
    var y := OriginOf(items, key, x, j);
    RestPosition(items, capacity, key, y);
    KeyIn(Rest(items, capacity, key)[..j], y);
  }

  lemma RestOrigins(items: Items, capacity: nat, key: Key, j: nat)
    requires capacity > 0 && Distinct(items) && j < |Rest(items, capacity, key)|
    ensures Origin(items, key, j) <= |items|
    ensures KeysOf(Rest(items, capacity, key)[..j]) == KeysOf(items[..Origin(items, key, j)]) - {key}
  {
    RestPositions(items, capacity, key);
    var (r, o) := (KeysOf(Rest(items, capacity, key)[..j]), KeysOf(items[..Origin(items, key, j)]));
    forall k
      ensures k in r <==> k in o && k != key
    {
      if k in r {
        FrontKept(items, capacity, key, j, k);
      } else if k in o && k != key {
        FrontComplete(items, capacity, key, j, k);
      }
    }
  }

  /** An entry of the rest has at most the keys in front of it that it had before, and all but the touched one. */
  lemma RestBehind(items: Items, capacity: nat, key: Key, since: Key -> Option<set<Key>>, j: nat)
    requires capacity > 0 && Tracks(items, capacity, since) && j < |Rest(items, capacity, key)|
    ensures var r := Rest(items, capacity, key);
            && Behind(r, since, j) && r[j].key != key
            && (Exact(items, since) ==> KeysOf(r[..j]) == since(r[j].key).value - {key})
  {
    RestPositions(items, capacity, key);
    RestOrigins(items, capacity, key, j);
    assert Behind(items, since, Origin(items, key, j));
  }

  lemma AfterTouch(items: Items, capacity: nat, call: Call, since: Key -> Option<set<Key>>, since1: Key -> Option<set<Key>>)
    requires capacity > 0 && Tracks(items, capacity, since) && EventOf(items, call) == Touches(call.key)
    requires forall k :: since1(k) == Extend(since(k), Touches(call.key), k)
    ensures Tracks(Apply(items, capacity, call), capacity, since1)
    ensures Exact(items, since) ==> Exact(Apply(items, capacity, call), since1)
  {
    var r := Apply(items, capacity, call);
    TouchedDistinct(items, capacity, call);
    forall i | 0 <= i < |r|
      ensures Behind(r, since1, i) && (Exact(items, since) ==> since1(r[i].key) == Some(KeysOf(r[..i])))
    {
      TouchedBehind(items, capacity, call, since, since1, r, i);
    }
    forall k | since1(k).Some? && IndexOf(r, k) == |r|
      ensures |since1(k).value| >= capacity
    {
      EvictionNeedsCapacity(items, capacity, call, since, since1, k);
    }
  }

  lemma TouchedDistinct(items: Items, capacity: nat, call: Call)
    requires capacity > 0 && |items| <= capacity && Distinct(items) && EventOf(items, call) == Touches(call.key)
    ensures Distinct(Apply(items, capacity, call)) && |Apply(items, capacity, call)| <= capacity
  {
    var (r, rest) := (Apply(items, capacity, call), Rest(items, capacity, call.key));
    TouchedShape(items, capacity, call);
    RestPositions(items, capacity, call.key);
    assert forall i :: 0 < i < |r| ==> r[i] == rest[i - 1];
  }

  lemma TouchedBehind(items: Items, capacity: nat, call: Call, since: Key -> Option<set<Key>>,
                      since1: Key -> Option<set<Key>>, r: Items, i: nat)
    requires capacity > 0 && Tracks(items, capacity, since) && EventOf(items, call) == Touches(call.key)
    requires forall k :: since1(k) == Extend(since(k), Touches(call.key), k)
    requires r == Apply(items, capacity, call) && i < |r|
    ensures Behind(r, since1, i) && (Exact(items, since) ==> since1(r[i].key) == Some(KeysOf(r[..i])))
  {
    TouchedShape(items, capacity, call);
    if i > 0 {
      RestBehind(items, capacity, call.key, since, i - 1);
      PushedBehind(r, Rest(items, capacity, call.key), call.key, since, since1, i);
    } else {
      assert KeysOf(r[..0]) == {};
    }
  }

  lemma PushedBehind(r: Items, rest: Items, key: Key, since: Key -> Option<set<Key>>, since1: Key -> Option<set<Key>>, i: nat)
    requires r != [] && r[0].key == key && r[1..] == rest && 0 < i < |r|
    requires Behind(rest, since, i - 1) && rest[i - 1].key != key
    requires since1(r[i].key) == Extend(since(r[i].key), Touches(key), r[i].key)
    ensures Behind(r, since1, i)
    ensures KeysOf(rest[..i - 1]) == since(rest[i - 1].key).value - {key} ==> since1(r[i].key) == Some(KeysOf(r[..i]))
  {
    assert r[i] == rest[i - 1];
    InFront(r, rest, key, i);
    var s := since(rest[i - 1].key).value;
    assert (s - {key}) + {key} == s + {key};
  }

  lemma InFront(r: Items, rest: Items, key: Key, i: nat)
    requires r != [] && r[0].key == key && r[1..] == rest && 0 < i < |r|
    ensures KeysOf(r[..i]) == KeysOf(rest[..i - 1]) + {key}
  {
    forall k | k in KeysOf(rest[..i - 1]) + {key}
      ensures k in KeysOf(r[..i])
    {
      if k == key {
        assert r[..i][0].key == k;
      } else {
        var y :| 0 <= y < i - 1 && rest[y].key == k;
        assert r[..i][y + 1].key == k;
      }
    }
    forall k | k in KeysOf(r[..i])
      ensures k in KeysOf(rest[..i - 1]) + {key}
    {
      var y :| 0 <= y < i && r[y].key == k;
      if y > 0 {
        assert rest[..i - 1][y - 1].key == k;
      }
    }
  }

  /** A key that is out of a just touched cache has had at least capacity other keys touched since. */
  lemma EvictionNeedsCapacity(items: Items, capacity: nat, call: Call, since: Key -> Option<set<Key>>,
                              since1: Key -> Option<set<Key>>, k: Key)
    requires capacity > 0 && Tracks(items, capacity, since) && EventOf(items, call) == Touches(call.key)
    requires since1(k) == Extend(since(k), Touches(call.key), k)
    requires since1(k).Some? && IndexOf(Apply(items, capacity, call), k) == |Apply(items, capacity, call)|
    ensures |since1(k).value| >= capacity
  {
    TouchedShape(items, capacity, call);
    assert k != call.key;
    var x := IndexOf(items, k);
    if x == |items| {
      Larger(since(k).value, since1(k).value);
    } else if x < |items| - 1 || IndexOf(items, call.key) < |items| || |items| < capacity {
      var y := KeptUnlessLast(items, capacity, call, x);
    } else {
      LastHasCapacity(items, since, call.key);
      Larger(KeysOf(items[..|items| - 1]) + {call.key}, since1(k).value);
    }
  }

  /** In a full cache the keys in front of the last one and a new key make capacity keys. */
  lemma LastHasCapacity(items: Items, since: Key -> Option<set<Key>>, key: Key)
    requires items != [] && Distinct(items) && IndexOf(items, key) == |items| && Behind(items, since, |items| - 1)
    ensures var front := KeysOf(items[..|items| - 1]);
            |front + {key}| == |items| && front <= since(items[|items| - 1].key).value
  {
    var n := |items| - 1;
    assert Distinct(items[..n]);
    DistinctKeysCount(items[..n]);
    assert key !in KeysOf(items[..n]);
  }

  /** A touch keeps every other entry, except the last one when a new key enters a full cache. */
  lemma KeptUnlessLast(items: Items, capacity: nat, call: Call, x: nat) returns (y: nat)
    requires capacity > 0 && |items| <= capacity && Distinct(items) && EventOf(items, call) == Touches(call.key)
    requires x < |items| && items[x].key != call.key
    requires x < |items| - 1 || IndexOf(items, call.key) < |items| || |items| < capacity
    ensures y < |Apply(items, capacity, call)| && Apply(items, capacity, call)[y] == items[x]
  {
    TouchedShape(items, capacity, call);
    y := KeptInRest(items, capacity, call.key, x);
    y := y + 1;
  }

  lemma KeptInRest(items: Items, capacity: nat, key: Key, x: nat) returns (y: nat)
    requires capacity > 0 && |items| <= capacity && x < |items| && items[x].key != key
    requires x < |items| - 1 || IndexOf(items, key) < |items| || |items| < capacity
    ensures y < |Rest(items, capacity, key)| && Rest(items, capacity, key)[y] == items[x]
  {
    var i := IndexOf(items, key);
    y := if i < |items| && x > i then x - 1 else x;
  }

  lemma {:induction false} Larger<T>(a: set<T>, b: set<T>)
    requires a <= b
    ensures |a| <= |b|
  {
    if a != {} {
      var x :| x in a;
      Larger(a - {x}, b - {x});
    }
  }

  lemma AfterDelete(items: Items, capacity: nat, key: Key, since: Key -> Option<set<Key>>, since1: Key -> Option<set<Key>>)
    requires capacity > 0 && Tracks(items, capacity, since) && IndexOf(items, key) < |items|
    requires forall k :: since1(k) == Extend(since(k), Deletes(key), k)
    ensures Tracks(Without(items, IndexOf(items, key)), capacity, since1)
  {
    var r := Rest(items, capacity, key);
    RestPositions(items, capacity, key);
    forall j | 0 <= j < |r|
      ensures Behind(r, since1, j)
    {
      RestBehind(items, capacity, key, since, j);
    }
    forall k | since1(k).Some? && IndexOf(r, k) == |r|
      ensures |since1(k).value| >= capacity
    {
      OnlyDeletedIsGone(items, key, k);
    }
  }

  lemma OnlyDeletedIsGone(items: Items, key: Key, k: Key)
    requires IndexOf(items, key) < |items| && k != key
    requires var r := Without(items, IndexOf(items, key)); IndexOf(r, k) == |r|
    ensures IndexOf(items, k) == |items|
  {
    var i := IndexOf(items, key);
    var r := Without(items, i);
    forall x | 0 <= x < |items|
      ensures items[x].key != k
    {
      assert x < i ==> r[x] == items[x];
      assert x > i ==> r[x - 1] == items[x];
    }
  }

  lemma SameRecord(items: Items, capacity: nat, since: Key -> Option<set<Key>>, since1: Key -> Option<set<Key>>)
    requires Tracks(items, capacity, since) && forall k :: since1(k) == since(k)
    ensures Tracks(items, capacity, since1) && (Exact(items, since) ==> Exact(items, since1))
  {
    forall i | 0 <= i < |items|
      ensures Behind(items, since1, i)
    {
      assert Behind(items, since, i);
    }
  }

  ghost predicate NoNilPuts(calls: seq<Call>) {
    forall i :: 0 <= i < |calls| ==> calls[i].Put? ==> calls[i].state.Some?
  }

  lemma {:induction false} HistoryTracked(calls: seq<Call>, capacity: nat)
    requires capacity > 0
    ensures Tracks(After(calls, capacity), capacity, key => Since(calls, capacity, key))
    ensures NoNilPuts(calls) ==> Exact(After(calls, capacity), key => Since(calls, capacity, key))
  {
    if calls != [] {
      var (front, call) := (calls[..|calls| - 1], calls[|calls| - 1]);
      HistoryTracked(front, capacity);
      var items := After(front, capacity);
      var (since, since1) := ((k: Key) => Since(front, capacity, k), (k: Key) => Since(calls, capacity, k));
      match EventOf(items, call) {
        case Touches(_) => AfterTouch(items, capacity, call, since, since1);
        case Deletes(_) => AfterDelete(items, capacity, call.key, since, since1);
        case NoEvent => SameRecord(items, capacity, since, since1);
      }
    }
  }

  /**
   * Over every history: the size stays within capacity, a held key was not deleted since its last
   * touch, and a key not deleted since its last touch is still held if fewer than capacity distinct
   * other keys were touched since.
   */
  lemma RecentlyTouchedIsResident(calls: seq<Call>, capacity: nat, key: Key)
    requires capacity > 0
    ensures |After(calls, capacity)| <= capacity
    ensures Resident(After(calls, capacity), key) ==> Since(calls, capacity, key).Some?
    ensures Since(calls, capacity, key).Some? && |Since(calls, capacity, key).value| < capacity
            ==> Resident(After(calls, capacity), key)
  {
    HistoryTracked(calls, capacity);
    var items := After(calls, capacity);
    if i :| 0 <= i < |items| && items[i].key == key {
      assert Behind(items, k => Since(calls, capacity, k), i);
    }
    var j := IndexOf(items, key);
    if j < |items| {
      assert items[j].key == key;
    }
  }

  /** With no nil Put in the history the rule is exact. */
  lemma ResidentExactlyIfRecent(calls: seq<Call>, capacity: nat, key: Key)
    requires capacity > 0 && NoNilPuts(calls)
    ensures Resident(After(calls, capacity), key) <==>
            Since(calls, capacity, key).Some? && |Since(calls, capacity, key).value| < capacity
  {
    RecentlyTouchedIsResident(calls, capacity, key);
    HistoryTracked(calls, capacity);
    var items := After(calls, capacity);
    if i :| 0 <= i < |items| && items[i].key == key {
      assert Distinct(items[..i]);
      DistinctKeysCount(items[..i]);
    }
  }

  /** The state the last Put of a key gave, if it was ever put. */
  function LastPut(calls: seq<Call>, key: Key): Option<Option<Session>> {
    if calls == [] then None
    else
      var call := calls[|calls| - 1];
      if call.Put? && call.key == key then Some(call.state) else LastPut(calls[..|calls| - 1], key)
  }

  /** Every entry holds what was last put under its key. */
  ghost predicate HoldsLast(items: Items, calls: seq<Call>) {
    forall i :: 0 <= i < |items| ==> LastPut(calls, items[i].key) == Some(items[i].state)
  }

  /** Where an entry after a call comes from: it was there before, or the call put it there. */
  lemma EntryOrigin(items: Items, capacity: nat, call: Call, i: nat)
    requires capacity > 0 && |items| <= capacity && Distinct(items) && i < |Apply(items, capacity, call)|
    ensures var e := Apply(items, capacity, call)[i];
            || (call.Put? && e == Item(call.key, call.state))
            || (e in items && (call.Put? ==> e.key != call.key))
  {
    match EventOf(items, call) {
      case NoEvent =>
      case Deletes(key) =>
        RestPosition(items, capacity, key, i);
      case Touches(key) =>
        RestPositions(items, capacity, key);
        TouchedShape(items, capacity, call);
        if i > 0 {
          assert Apply(items, capacity, call)[i] == Rest(items, capacity, key)[i - 1];
        }
    }
  }

  /** What a resident key holds is what was last put under it, over every history of Gets, Puts, deletions and evictions. */
  lemma {:induction false} ResidentHoldsLastPut(calls: seq<Call>, capacity: nat)
    requires capacity > 0
    ensures HoldsLast(After(calls, capacity), calls)
  {
    if calls != [] {
      var (front, call) := (calls[..|calls| - 1], calls[|calls| - 1]);
      ResidentHoldsLastPut(front, capacity);
      HistoryTracked(front, capacity);
      var (before, items) := (After(front, capacity), After(calls, capacity));
      forall i | 0 <= i < |items|
        ensures LastPut(calls, items[i].key) == Some(items[i].state)
      {
        EntryOrigin(before, capacity, call, i);
      }
    }
  }

  /** What a Get answers after a history: the state last put under the key while it is resident, else nothing. */
  function Answer(calls: seq<Call>, capacity: nat, key: Key): Option<Option<Session>>
    requires capacity > 0
  {
    if Resident(After(calls, capacity), key) then LastPut(calls, key) else None
  }

  /**
   * A sequence of calls on the object itself: it stays what the history says, and every Get is answered with
   * what was last put under its key, or not at all if the key is not resident.
   */
  method Replay(cache: LruSessionCache, calls: seq<Call>) returns (answers: seq<Option<Option<Session>>>)
    requires cache.Valid() && cache.Contents() == []
    modifies cache
    ensures cache.Valid() && cache.Contents() == After(calls, cache.capacity)
    ensures Answered(calls, cache.capacity, answers) && |answers| == |calls|
  {
    answers := [];
    for n := 0 to |calls|
      invariant cache.Valid() && cache.Contents() == After(calls[..n], cache.capacity)
      invariant |answers| == n && Answered(calls, cache.capacity, answers)
    {
      var answer := ReplayOne(cache, calls[n], calls, n);
      OneMoreAnswered(calls, cache.capacity, answers, answer);
      answers := answers + [answer];
    }
    assert calls[..|calls|] == calls;
  }

  /** Every Get so far was answered from the history before it. */
  ghost predicate Answered(calls: seq<Call>, capacity: nat, answers: seq<Option<Option<Session>>>)
    requires capacity > 0
  {
    |answers| <= |calls| &&
    forall i :: 0 <= i < |answers| && calls[i].Get? ==> answers[i] == Answer(calls[..i], capacity, calls[i].key)
  }

  lemma AfterPrefix(calls: seq<Call>, n: nat, capacity: nat)
    requires capacity > 0 && n < |calls|
    ensures After(calls[..n + 1], capacity) == Apply(After(calls[..n], capacity), capacity, calls[n])
  {
    assert calls[..n + 1][..n] == calls[..n];
  }

  lemma OneMoreAnswered(calls: seq<Call>, capacity: nat, answers: seq<Option<Option<Session>>>, answer: Option<Option<Session>>)
    requires capacity > 0 && |answers| < |calls| && Answered(calls, capacity, answers)
    requires var n := |answers|; calls[n].Get? ==> answer == Answer(calls[..n], capacity, calls[n].key)
    ensures Answered(calls, capacity, answers + [answer])
  {
  }

  method ReplayOne(cache: LruSessionCache, call: Call, ghost calls: seq<Call>, ghost n: nat) returns (answer: Option<Option<Session>>)
    requires n < |calls| && call == calls[n] && cache.Valid() && cache.Contents() == After(calls[..n], cache.capacity)
    modifies cache
    ensures cache.Valid() && cache.Contents() == After(calls[..n + 1], cache.capacity)
    ensures call.Get? ==> answer == Answer(calls[..n], cache.capacity, call.key)
  {
    answer := None;
    ResidentHoldsLastPut(calls[..n], cache.capacity);
    AfterPrefix(calls, n, cache.capacity);
    match call {
      case Get(key) =>
        var state, ok := cache.Get(key);
        if ok {
          answer := Some(state);
        }
      case Put(key, state) =>
        cache.Put(key, state);
    }
  }

  lemma AfterOneMore(calls: seq<Call>, call: Call, capacity: nat, key: Key)
    requires capacity > 0
    ensures After(calls + [call], capacity) == Apply(After(calls, capacity), capacity, call)
    ensures Since(calls + [call], capacity, key) == Extend(Since(calls, capacity, key), EventOf(After(calls, capacity), call), key)
  {
    assert (calls + [call])[..|calls|] == calls;
  }

  lemma StoredInFront(items: Items, key: Key, state: Option<Session>)
    requires state.Some? && |items| == 1 && items[0].key != key
    ensures Apply(items, 2, Put(key, state)) == [Item(key, state)] + items && EventOf(items, Put(key, state)) == Touches(key)
  {
    assert IndexOf(items[1..], key) == 0;
  }

  lemma FrontDeleted(item: Item, rest: Items)
    ensures Apply([item] + rest, 2, Put(item.key, None)) == rest && EventOf([item] + rest, Put(item.key, None)) == Deletes(item.key)
  {
    assert Without([item] + rest, 0) == rest;
  }

  /** With a deletion in between the equivalence fails: a stays although two other keys were touched in a cache of two. */
  lemma DeletionLeavesRoom(a: Key, b: Key, c: Key, session: Session)
    requires a != b && b != c && a != c
    ensures var calls := [Put(a, Some(session))] + [Put(b, Some(session))] + [Put(b, None)] + [Put(c, Some(session))];
            Resident(After(calls, 2), a) && Since(calls, 2, a) == Some({b, c}) && |{b, c}| >= 2
  {
    var state := Some(session);
    var first := [Item(a, state)];
    var h1 := [Put(a, state)];
    var h2 := h1 + [Put(b, state)];
    var h3 := h2 + [Put(b, None)];
    AfterOneMore([], Put(a, state), 2, a);
    assert [] + [Put(a, state)] == h1;
    assert After(h1, 2) == first && Since(h1, 2, a) == Some({});
    AfterOneMore(h1, Put(b, state), 2, a);
    StoredInFront(first, b, state);
    assert {} + {b} == {b};
    AfterOneMore(h2, Put(b, None), 2, a);
    FrontDeleted(Item(b, state), first);
    AfterOneMore(h3, Put(c, state), 2, a);
    StoredInFront(first, c, state);
    assert {b} + {c} == {b, c};
    assert After(h3 + [Put(c, state)], 2)[1].key == a;
  }
}
