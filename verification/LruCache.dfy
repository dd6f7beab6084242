/** common.go: the LRU session cache, as the object with its map and list, and as what a history of calls leaves in it. */
module LruCache {
  import opened Bytes

  type Key = string
  type Session = bytes

  /** An entry's state may be nil: Put(key, nil) for an absent key stores exactly that. */
  datatype Item = Item(key: Key, state: Option<Session>)

  /** The cache as a value: its entries from most to least recently used. */
  type Items = seq<Item>

  const DEFAULT_CAPACITY := 64

  function IndexOf(items: Items, key: Key): (i: nat)
    ensures i <= |items|
    ensures i < |items| ==> items[i].key == key
    ensures forall j :: 0 <= j < i ==> items[j].key != key
  {
    if items == [] then 0 else if items[0].key == key then 0 else 1 + IndexOf(items[1..], key)
  }

  predicate Resident(items: Items, key: Key) {
    exists i :: 0 <= i < |items| && items[i].key == key
  }

  function Without<T>(s: seq<T>, i: nat): seq<T>
    requires i < |s|
  {
    s[..i] + s[i + 1..]
  }

  /** Put, with state None standing for a nil session. */
  function PutItems(items: Items, capacity: nat, key: Key, state: Option<Session>): Items
    requires capacity > 0
  {
    var i := IndexOf(items, key);
    if i < |items| then
      if state.None? then Without(items, i) else [Item(key, state)] + Without(items, i)
    else if |items| < capacity then [Item(key, state)] + items
    else [Item(key, state)] + items[..|items| - 1]
  }

  function GetItems(items: Items, key: Key): Items {
    var i := IndexOf(items, key);
    if i < |items| then [items[i]] + Without(items, i) else items
  }

  predicate Distinct(items: Items) {
    forall i, j :: 0 <= i < j < |items| ==> items[i].key != items[j].key
  }

  /** Identity of a list element; the map points at elements and Put rewrites them in place. */
  type Id = nat

  /** The element objects of the list. */
  type Elements = map<Id, Item>

  predicate Backed(q: seq<Id>, elems: Elements) {
    forall i :: 0 <= i < |q| ==> q[i] in elems
  }

  /** What a list of elements holds. */
  function View(q: seq<Id>, elems: Elements): (items: Items)
    requires Backed(q, elems)
    ensures |items| == |q|
    ensures forall i :: 0 <= i < |q| ==> items[i] == elems[q[i]]
  {
    seq(|q|, i requires 0 <= i < |q| => elems[q[i]])
  }

  /** Each listed element is in the map under its own key, and listed once. */
  ghost predicate ListInMap(m: map<Key, Id>, q: seq<Id>, elems: Elements) {
    && Backed(q, elems)
    && (forall i :: 0 <= i < |q| ==> elems[q[i]].key in m && m[elems[q[i]].key] == q[i])
    && Unique(q)
  }

  /** Each key in the map leads to a listed element with that key. */
  ghost predicate MapInList(m: map<Key, Id>, q: seq<Id>, elems: Elements) {
    forall k :: k in m ==> m[k] in q && m[k] in elems && elems[m[k]].key == k
  }

  lemma InWithout<T>(s: seq<T>, i: nat, x: T)
    requires i < |s| && x in s && x != s[i]
    ensures x in Without(s, i)
  {
    var j :| 0 <= j < |s| && s[j] == x;
    assert Without(s, i)[if j < i then j else j - 1] == x;
  }

  predicate Unique<T(==)>(s: seq<T>) {
    forall i, j :: 0 <= i < j < |s| ==> s[i] != s[j]
  }

  lemma UniqueWithout<T>(s: seq<T>, i: nat)
    requires i < |s| && Unique(s)
    ensures Unique(Without(s, i)) && s[i] !in Without(s, i)
    ensures forall j :: 0 <= j < |s| - 1 ==> Without(s, i)[j] == s[if j < i then j else j + 1]
  {
  }

  lemma RemovedStaysLinked(m: map<Key, Id>, q: seq<Id>, elems: Elements, i: nat)
    requires ListInMap(m, q, elems) && MapInList(m, q, elems) && i < |q|
    ensures var (m1, q1) := (m - {elems[q[i]].key}, Without(q, i)); ListInMap(m1, q1, elems) && MapInList(m1, q1, elems)
    ensures View(Without(q, i), elems) == Without(View(q, elems), i) && q[i] !in Without(q, i)
  {
    UniqueWithout(q, i);
    var (m1, q1) := (m - {elems[q[i]].key}, Without(q, i));
    forall k | k in m1
      ensures m1[k] in q1
    {
      InWithout(q, i, m[k]);
    }
  }

  /** Putting an element under a new key in front: a fresh element, or a removed one rewritten. */
  lemma PushedStaysLinked(m: map<Key, Id>, q: seq<Id>, elems: Elements, e: Id, item: Item)
    requires ListInMap(m, q, elems) && MapInList(m, q, elems) && item.key !in m && e !in q
    ensures var (m1, q1, elems1) := (m[item.key := e], [e] + q, elems[e := item]);
            && ListInMap(m1, q1, elems1) && MapInList(m1, q1, elems1)
            && View(q1, elems1) == [item] + View(q, elems)
  {
  }

  /** Moving to the front is removing and putting back. */
  lemma MovedStaysLinked(m: map<Key, Id>, q: seq<Id>, elems: Elements, i: nat)
    requires ListInMap(m, q, elems) && MapInList(m, q, elems) && i < |q|
    ensures var r := [q[i]] + Without(q, i); ListInMap(m, r, elems) && MapInList(m, r, elems)
    ensures View([q[i]] + Without(q, i), elems) == [View(q, elems)[i]] + Without(View(q, elems), i)
  {
    var (e, item) := (q[i], elems[q[i]]);
    RemovedStaysLinked(m, q, elems, i);
    PushedStaysLinked(m - {item.key}, Without(q, i), elems, e, item);
    assert (m - {item.key})[item.key := e] == m && elems[e := item] == elems;
  }

  class LruSessionCache {
    var m: map<Key, Id>
    var q: seq<Id>
    var elems: Elements
    var allocatedIds: nat
    const capacity: nat

    /** Map and list hold the same elements, and no more than the capacity allows. */
    ghost predicate Valid()
      reads this
    {
      && 0 < capacity && |q| <= capacity && ListInMap(m, q, elems) && MapInList(m, q, elems)
      && forall e :: e in elems ==> e < allocatedIds
    }

    function Contents(): Items
      requires Backed(q, elems)
      reads this
    {
      View(q, elems)
    }

    /** NewLRUClientSessionCache. */
    constructor (capacity: int)
      ensures Valid() && Contents() == []
      ensures this.capacity == if capacity < 1 then DEFAULT_CAPACITY else capacity
    {
      this.capacity := if capacity < 1 then DEFAULT_CAPACITY else capacity;
      m, q, elems, allocatedIds := map[], [], map[], 0;
    }

    /** Where the list holds an element the map points at. */
    method FindElement(e: Id) returns (i: nat)
      requires Valid() && e in q
      ensures i < |q| && q[i] == e && i == IndexOf(Contents(), elems[e].key)
    {
      i := 0;
      while q[i] != e
        invariant i < |q| && e in q[i..]
        decreases |q| - i
      {
        i := i + 1;
      }
      KeyPosition(Contents(), elems[e].key, i);
    }

    method MoveToFront(i: nat)
      requires Valid() && i < |q|
      modifies this`q
      ensures Valid() && Contents() == [old(Contents())[i]] + Without(old(Contents()), i)
    {
      MovedStaysLinked(m, q, elems, i);
      q := [q[i]] + Without(q, i);
    }

    method Get(key: Key) returns (state: Option<Session>, ok: bool)
      requires Valid()
      modifies this
      ensures Valid() && Contents() == GetItems(old(Contents()), key)
      ensures ok <==> Resident(old(Contents()), key)
      ensures ok ==> state == old(Contents())[IndexOf(old(Contents()), key)].state
    {
      if key in m {
        var i := FindElement(m[key]);
        assert Contents()[i].key == key;
        MoveToFront(i);
        return elems[m[key]].state, true;
      }
      AbsentKey(Contents(), key);
      return None, false;
    }

    /** A session stored for a key the cache already holds, or its removal. */
    method Update(key: Key, state: Option<Session>)
      requires Valid() && key in m
      modifies this
      ensures Valid() && Contents() == PutItems(old(Contents()), capacity, key, state)
    {
      var i := FindElement(m[key]);
      if state.None? {
        RemovedStaysLinked(m, q, elems, i);
        q := Without(q, i);
        m := m - {key};
      } else {
        ghost var was := Contents();
        Rewritten(m, q, elems, i, Item(key, state));
        elems := elems[m[key] := Item(key, state)];
        MoveToFront(i);
        assert Without(was[i := Item(key, state)], i) == Without(was, i);
      }
    }

    /** A new key in a full cache takes over the least recently used element. */
    method Replace(key: Key, state: Option<Session>)
      requires Valid() && key !in m && |q| == capacity
      modifies this
      ensures Valid() && Contents() == [Item(key, state)] + old(Contents())[..|old(Contents())| - 1]
    {
      var n := |q| - 1;
      var e := q[n];
      RemovedStaysLinked(m, q, elems, n);
      assert Without(q, n) == q[..n];
      assert Without(Contents(), n) == Contents()[..n];
      m := m - {elems[e].key};
      PushedStaysLinked(m, q[..n], elems, e, Item(key, state));
      elems := elems[e := Item(key, state)];
      q := [e] + q[..n];
      m := m[key := e];
    }

    method Put(key: Key, state: Option<Session>)
      requires Valid()
      modifies this
      ensures Valid() && Contents() == PutItems(old(Contents()), capacity, key, state)
    {
      if key in m {
        Update(key, state);
        return;
      }
      NotResident(m, q, elems, key);
      AbsentKey(Contents(), key);
      if |q| < capacity {
        var e := allocatedIds;
        allocatedIds := e + 1;
        PushedStaysLinked(m, q, elems, e, Item(key, state));
        elems := elems[e := Item(key, state)];
        q := [e] + q;
        m := m[key := e];
        return;
      }
      Replace(key, state);
    }
  }

  lemma Rewritten(m: map<Key, Id>, q: seq<Id>, elems: Elements, i: nat, item: Item)
    requires ListInMap(m, q, elems) && MapInList(m, q, elems) && i < |q| && item.key == elems[q[i]].key
    ensures var elems1 := elems[q[i] := item];
            ListInMap(m, q, elems1) && MapInList(m, q, elems1) && View(q, elems1) == View(q, elems)[i := item]
  {
  }

  lemma NotResident(m: map<Key, Id>, q: seq<Id>, elems: Elements, key: Key)
    requires ListInMap(m, q, elems) && key !in m
    ensures !Resident(View(q, elems), key)
  {
  }

  lemma {:induction false} KeyPosition(items: Items, key: Key, i: nat)
    requires i < |items| && items[i].key == key && Distinct(items)
    ensures IndexOf(items, key) == i
  {
    var j := IndexOf(items, key);
    assert j <= i;
  }

  lemma AbsentKey(items: Items, key: Key)
    requires !Resident(items, key)
    ensures IndexOf(items, key) == |items|
  {
  }
}
