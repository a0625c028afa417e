/** The least-recently-used cache of the Go engine and the memoised GeoIP lookups on top of it. */
module LruCache {
  import opened Wrappers

  // ---------------------------------------------------------------------------------------------
  // What the cache holds, front first

  type Entries<K, V> = seq<(K, V)>

  function Removed<K(==), V>(s: Entries<K, V>, key: K): Entries<K, V> {
    if s == [] then [] else (if s[0].0 == key then [] else [s[0]]) + Removed(s[1..], key)
  }

  function Taken<T>(s: seq<T>, n: nat): seq<T> { if |s| <= n then s else s[..n] }

  /** `key` with `value` moves to the front; what no longer fits falls off the back. */
  function Touched<K(==), V>(s: Entries<K, V>, capacity: nat, key: K, value: V): Entries<K, V> {
    Taken([(key, value)] + Removed(s, key), capacity)
  }

  function Found<K(==), V>(s: Entries<K, V>, key: K): Option<V> {
    if s == [] then None else if s[0].0 == key then Some(s[0].1) else Found(s[1..], key)
  }

  ghost predicate DistinctKeys<K, V>(s: Entries<K, V>) {
    forall i, j | 0 <= i < j < |s| :: s[i].0 != s[j].0
  }

  lemma {:induction false} RemovedAt<K, V>(s: Entries<K, V>, i: nat)
    requires DistinctKeys(s) && i < |s|
    ensures Removed(s, s[i].0) == s[..i] + s[i + 1..] && Found(s, s[i].0) == Some(s[i].1)
  {
    if i == 0 {
      RemovedAbsent(s[1..], s[0].0);
    } else {
      RemovedAt(s[1..], i - 1);
      assert s[..i] + s[i + 1..] == [s[0]] + (s[1..][..i - 1] + s[1..][i..]);
    }
  }

  lemma {:induction false} RemovedAbsent<K, V>(s: Entries<K, V>, key: K)
    requires forall i | 0 <= i < |s| :: s[i].0 != key
    ensures Removed(s, key) == s && Found(s, key).None?
  {
    if s != [] { RemovedAbsent(s[1..], key); }
  }

  // ---------------------------------------------------------------------------------------------
  // The list operations of `container/list`

  ghost predicate Distinct<T>(s: seq<T>) { forall i, j | 0 <= i < j < |s| :: s[i] != s[j] }

  function MovedToFront<T>(s: seq<T>, i: nat): seq<T>
    requires i < |s|
  {
    [s[i]] + s[..i] + s[i + 1..]
  }

  /** Where the j-th element comes from. */
  function Origin(i: nat, j: nat): nat { if j == 0 then i else if j <= i then j - 1 else j }

  lemma MovedAt<T>(s: seq<T>, i: nat, j: nat)
    requires i < |s| && j < |s|
    ensures |MovedToFront(s, i)| == |s| && MovedToFront(s, i)[j] == s[Origin(i, j)]
  {
  }

  lemma MovedToFrontMeaning<T>(s: seq<T>, i: nat)
    requires i < |s| && Distinct(s)
    ensures Distinct(MovedToFront(s, i)) && forall x :: x in MovedToFront(s, i) <==> x in s
  {
    var t := MovedToFront(s, i);
    assert s == s[..i] + [s[i]] + s[i + 1..];
    forall j | 0 <= j < |t| ensures t[j] == s[Origin(i, j)] {
      MovedAt(s, i, j);
    }
  }

  lemma MovedParts<T>(s: seq<T>, i: nat, x: T)
    requires i < |s|
    ensures MovedToFront(s, i) == [s[i]] + (s[..i] + s[i + 1..])
    ensures MovedToFront(s, i)[0 := x] == [x] + (s[..i] + s[i + 1..])
  {
  }

  /** Moving an entry to the front and giving it a value is a touch. */
  lemma MoveIsTouch<K, V>(s: Entries<K, V>, i: nat, capacity: nat, value: V)
    requires DistinctKeys(s) && i < |s| <= capacity
    ensures Found(s, s[i].0) == Some(s[i].1)
    ensures MovedToFront(s, i)[0 := (s[i].0, value)] == Touched(s, capacity, s[i].0, value)
    ensures value == s[i].1 ==> MovedToFront(s, i) == Touched(s, capacity, s[i].0, value)
  {
    RemovedAt(s, i);
    MovedParts(s, i, (s[i].0, value));
    var rest := s[..i] + s[i + 1..];
    assert |[(s[i].0, value)] + rest| == |s|;
    assert Touched(s, capacity, s[i].0, value) == [(s[i].0, value)] + rest;
  }

  /** Pushing a new entry to the front and dropping the last one if there are too many is a touch. */
  lemma PushIsTouch<K, V>(s: Entries<K, V>, capacity: nat, key: K, value: V)
    requires |s| <= capacity && forall i | 0 <= i < |s| :: s[i].0 != key
    ensures Found(s, key).None?
    ensures Touched(s, capacity, key, value) ==
            if |s| < capacity then [(key, value)] + s else ([(key, value)] + s)[..|s|]
  {
    RemovedAbsent(s, key);
  }

  // ---------------------------------------------------------------------------------------------
  // The cache

  class Elem<K, V> {
    const key: K
    var value: V

    constructor (key: K, value: V)
      ensures this.key == key && this.value == value
    {
      this.key := key;
      this.value := value;
    }
  }

  /** Map and list are in bijection. */
  ghost predicate InBijection<K, V>(items: map<K, Elem<K, V>>, order: seq<Elem<K, V>>) {
    && (forall i | 0 <= i < |order| :: order[i].key in items && items[order[i].key] == order[i])
    && (forall k | k in items :: items[k].key == k && items[k] in order)
    && Distinct(order)
  }

  lemma MoveKeepsBijection<K, V>(items: map<K, Elem<K, V>>, order: seq<Elem<K, V>>, i: nat)
    requires InBijection(items, order) && i < |order|
    ensures InBijection(items, MovedToFront(order, i))
  {
    MovedToFrontMeaning(order, i);
    var moved := MovedToFront(order, i);
    forall j | 0 <= j < |moved| ensures moved[j].key in items && items[moved[j].key] == moved[j] {
      assert moved[j] in order;
    }
  }

  lemma PushKeepsBijection<K, V>(items: map<K, Elem<K, V>>, order: seq<Elem<K, V>>, elem: Elem<K, V>)
    requires InBijection(items, order) && elem.key !in items
    ensures InBijection(items[elem.key := elem], [elem] + order)
  {
    assert forall i | 0 <= i < |order| :: order[i].key != elem.key;
    forall k | k in items ensures items[k] in [elem] + order {
      assert items[k] in order;
    }
  }

  ghost function EntriesOf<K, V>(order: seq<Elem<K, V>>): Entries<K, V>
    reads order
  {
    seq(|order|, i requires 0 <= i < |order| reads order => (order[i].key, order[i].value))
  }

  lemma PushContents<K, V>(order: seq<Elem<K, V>>, elem: Elem<K, V>)
    ensures EntriesOf([elem] + order) == [(elem.key, elem.value)] + EntriesOf(order)
  {
  }

  /** A map from keys to list elements and the list itself, most recently used first. */
  class Lru<K(==), V> {
    const maxSize: int
    var items: map<K, Elem<K, V>>
    var order: seq<Elem<K, V>>

    ghost function Capacity(): nat { if maxSize < 0 then 0 else maxSize }

    ghost predicate Linked()
      reads this
    {
      InBijection(items, order)
    }

    /** ... and within the limit. */
    ghost predicate Valid()
      reads this
    {
      Linked() && |order| <= Capacity()
    }

    ghost function Contents(): Entries<K, V>
      reads this, order
    {
      EntriesOf(order)
    }

    constructor (maxSize: int)
      ensures Valid() && this.maxSize == maxSize && Contents() == []
    {
      this.maxSize := maxSize;
      items, order := map[], [];
    }

    lemma KeysDistinct()
      requires Linked()
      ensures DistinctKeys(Contents())
    {
    }

    lemma KeyAbsent(key: K)
      requires Linked() && key !in items
      ensures forall i | 0 <= i < |Contents()| :: Contents()[i].0 != key
    {
    }

    /** Moves the i-th element to the front, as the source does through its pointer. */
    method MoveToFront(i: nat)
      requires Valid() && i < |order|
      modifies this`order
      ensures Valid() && order == MovedToFront(old(order), i)
      ensures Contents() == MovedToFront(old(Contents()), i)
    {
      MoveKeepsBijection(items, order, i);
      ghost var before := Contents();
      MovedAt(order, i, 0);
      order := [order[i]] + order[..i] + order[i + 1..];
      forall j | 0 <= j < |order| ensures Contents()[j] == MovedToFront(before, i)[j] {
        MovedAt(old(order), i, j);
        MovedAt(before, i, j);
      }
    }

    method Get(key: K) returns (r: Option<V>)
      requires Valid()
      modifies this`order
      ensures Valid()
      ensures r == Found(old(Contents()), key)
      ensures Contents() == if r.Some? then Touched(old(Contents()), Capacity(), key, r.value) else old(Contents())
    {
      KeysDistinct();
      if key !in items {
        KeyAbsent(key);
        RemovedAbsent(Contents(), key);
        return None;
      }
      var elem := items[key];
      var i: nat :| i < |order| && order[i] == elem;
      ghost var before := Contents();
      assert before[i] == (key, elem.value);
      MoveIsTouch(before, i, Capacity(), elem.value);
      MoveToFront(i);
      return Some(elem.value);
    }

    method UpdateAt(i: nat, value: V)
      requires Valid() && i < |order|
      modifies this`order, order[i]
      ensures Valid() && order == MovedToFront(old(order), i)
      ensures Contents() == MovedToFront(old(Contents()), i)[0 := (old(order[i]).key, value)]
    {
      var elem := order[i];
      ghost var before := Contents();
      MoveToFront(i);
      assert order[0] == elem && Contents() == MovedToFront(before, i);
      ghost var moved := Contents();
      elem.value := value;
      forall j | 1 <= j < |order| ensures Contents()[j] == moved[j] {
        assert order[j] != elem;
      }
      assert Contents() == moved[0 := (elem.key, value)];
    }

    method PushFront(key: K, value: V)
      requires Linked() && key !in items
      modifies this`order, this`items
      ensures Linked() && |order| == |old(order)| + 1 && order[1..] == old(order) && fresh(order[0])
      ensures Contents() == [(key, value)] + old(Contents())
    {
      var elem := new Elem(key, value);
      PushKeepsBijection(items, order, elem);
      PushContents(order, elem);
      order := [elem] + order;
      items := items[key := elem];
      assert order[1..] == old(order);
    }

    method RemoveBack()
      requires Linked() && order != []
      modifies this`order, this`items
      ensures Linked() && order == old(order)[..|old(order)| - 1]
      ensures Contents() == old(Contents())[..|old(order)| - 1]
    {
      var tail := order[|order| - 1];
      ghost var before := order;
      order := order[..|order| - 1];
      items := items - {tail.key};
      forall i | 0 <= i < |order| ensures order[i].key in items && items[order[i].key] == order[i] {
        assert order[i] == before[i] && before[i] != tail;
      }
      forall k | k in items ensures items[k] in order {
        var i :| 0 <= i < |before| && before[i] == items[k];
        assert i < |order| ==> order[i] == items[k];
      }
    }

    method Set(key: K, value: V)
      requires Valid()
      modifies this`order, this`items, order
      ensures Valid()
      ensures forall i | 0 <= i < |order| :: order[i] in old(order) || fresh(order[i])
      ensures Contents() == Touched(old(Contents()), Capacity(), key, value)
    {
      KeysDistinct();
      ghost var before := Contents();
      if key in items {
        var i: nat :| i < |order| && order[i] == items[key];
        MoveIsTouch(before, i, Capacity(), value);
        MovedToFrontMeaning(order, i);
        UpdateAt(i, value);
      } else {
        KeyAbsent(key);
        PushIsTouch(before, Capacity(), key, value);
        PushFront(key, value);
        assert forall i | 1 <= i < |order| :: order[i] == order[1..][i - 1];
        if |order| > maxSize {
          RemoveBack();
        }
      }
    }
  }

  // ---------------------------------------------------------------------------------------------
  // Runs

  datatype Op<K, V> = Lookup(key: K) | Store(key: K, value: V)

  /** What the cache holds after a run of `Get` and `Set` calls. */
  function After<K(==), V>(capacity: nat, ops: seq<Op<K, V>>): Entries<K, V> {
    if ops == [] then []
    else
      var before := After(capacity, ops[..|ops| - 1]);
      match ops[|ops| - 1]
      case Store(key, value) => Touched(before, capacity, key, value)
      case Lookup(key) =>
        match Found(before, key)
        case None => before
        case Some(value) => Touched(before, capacity, key, value)
  }

  /** The keys stored or successfully looked up, oldest first. */
  function TouchLog<K(==), V>(capacity: nat, ops: seq<Op<K, V>>): seq<K> {
    if ops == [] then []
    else
      var n := |ops| - 1;
      var op := ops[n];
      TouchLog(capacity, ops[..n])
      + if op.Lookup? && Found(After(capacity, ops[..n]), op.key).None? then [] else [op.key]
  }

  function Dropped<K(==)>(keys: seq<K>, key: K): seq<K> {
    if keys == [] then [] else (if keys[0] == key then [] else [keys[0]]) + Dropped(keys[1..], key)
  }

  /** The distinct keys of a log, the most recent first. */
  function Recency<K(==)>(log: seq<K>): seq<K> {
    if log == [] then []
    else [log[|log| - 1]] + Dropped(Recency(log[..|log| - 1]), log[|log| - 1])
  }

  function KeysOf<K, V>(s: Entries<K, V>): seq<K> { seq(|s|, i requires 0 <= i < |s| => s[i].0) }

  lemma {:induction false} KeysOfRemoved<K(!new), V(!new)>(s: Entries<K, V>, key: K)
    ensures KeysOf(Removed(s, key)) == Dropped(KeysOf(s), key)
  {
    if s != [] {
      KeysOfRemoved(s[1..], key);
      assert KeysOf(s)[1..] == KeysOf(s[1..]);
    }
  }

  lemma {:induction false} DroppedMeaning<K(!new)>(keys: seq<K>, key: K)
    ensures forall x :: x in Dropped(keys, key) <==> x in keys && x != key
    ensures Distinct(keys) ==> Distinct(Dropped(keys, key))
    ensures key !in keys ==> Dropped(keys, key) == keys
  {
    if keys != [] {
      DroppedMeaning(keys[1..], key);
      assert keys == [keys[0]] + keys[1..];
      if Distinct(keys) {
        assert forall i | 0 <= i < |keys[1..]| :: keys[1..][i] == keys[i + 1];
        assert Distinct(keys[1..]);
        assert forall y | y in Dropped(keys[1..], key) :: y in keys[1..];
        assert Distinct([keys[0]] + keys[1..]);
        ConsDistinct(keys[0], Dropped(keys[1..], key), keys[1..]);
      }
    }
  }

  lemma ConsDistinct<K(!new)>(x: K, some: seq<K>, all: seq<K>)
    requires Distinct([x] + all) && Distinct(some) && forall y :: y in some ==> y in all
    ensures Distinct([x] + some)
  {
    forall j | 0 <= j < |some| ensures some[j] != x {
      assert some[j] in all;
      var i :| 0 <= i < |all| && all[i] == some[j];
      assert ([x] + all)[0] == x && ([x] + all)[i + 1] == some[j];
    }
  }

  lemma {:induction false} RecencyDistinct<K(!new)>(log: seq<K>)
    ensures Distinct(Recency(log)) && forall x :: x in Recency(log) <==> x in log
  {
    if log != [] {
      var n := |log| - 1;
      RecencyDistinct(log[..n]);
      DroppedMeaning(Recency(log[..n]), log[n]);
      assert log == log[..n] + [log[n]];
    }
  }

  /** The position just after the last occurrence of a key in the log, 0 if there is none. */
  ghost function LastTouch<K>(log: seq<K>, key: K): nat {
    if log == [] then 0
    else if log[|log| - 1] == key then |log|
    else LastTouch(log[..|log| - 1], key)
  }

  lemma {:induction false} LastTouchBound<K(!new)>(log: seq<K>, key: K)
    ensures LastTouch(log, key) <= |log|
  {
    if log != [] { LastTouchBound(log[..|log| - 1], key); }
  }

  ghost predicate ByLastTouch<K>(keys: seq<K>, log: seq<K>) {
    forall i, j | 0 <= i < j < |keys| :: LastTouch(log, keys[i]) > LastTouch(log, keys[j])
  }

  lemma ConsByLastTouch<K(!new)>(x: K, keys: seq<K>, log: seq<K>)
    requires ByLastTouch(keys, log) && forall y | y in keys :: LastTouch(log, x) > LastTouch(log, y)
    ensures ByLastTouch([x] + keys, log)
  {
  }

  lemma {:induction false} DroppedKeepsOrder<K(!new)>(keys: seq<K>, key: K, log: seq<K>)
    requires ByLastTouch(keys, log)
    ensures ByLastTouch(Dropped(keys, key), log)
  {
    if keys != [] {
      assert forall i | 0 <= i < |keys[1..]| :: keys[1..][i] == keys[i + 1];
      DroppedKeepsOrder(keys[1..], key, log);
      DroppedMeaning(keys[1..], key);
      forall y | y in keys[1..] ensures LastTouch(log, keys[0]) > LastTouch(log, y) {
        var i :| 0 <= i < |keys[1..]| && keys[1..][i] == y;
        assert keys[i + 1] == y;
      }
      assert forall y | y in Dropped(keys[1..], key) :: y in keys[1..];
      ConsByLastTouch(keys[0], Dropped(keys[1..], key), log);
    }
  }

  lemma SameOrderLater<K(!new)>(keys: seq<K>, log: seq<K>, last: K)
    requires ByLastTouch(keys, log) && last !in keys
    ensures ByLastTouch(keys, log + [last])
  {
    assert (log + [last])[..|log|] == log;
    forall i | 0 <= i < |keys| ensures LastTouch(log + [last], keys[i]) == LastTouch(log, keys[i]) {
      assert keys[i] in keys;
    }
  }

  /** The list is ordered by last touch: what comes first was touched last. */
  lemma {:induction false} RecencyIsByLastTouch<K(!new)>(log: seq<K>)
    ensures ByLastTouch(Recency(log), log)
  {
    if log != [] {
      var n := |log| - 1;
      RecencyIsByLastTouch(log[..n]);
      var rest := Dropped(Recency(log[..n]), log[n]);
      DroppedKeepsOrder(Recency(log[..n]), log[n], log[..n]);
      DroppedMeaning(Recency(log[..n]), log[n]);
      SameOrderLater(rest, log[..n], log[n]);
      assert log[..n] + [log[n]] == log;
      forall y | y in rest ensures LastTouch(log, log[n]) > LastTouch(log, y) {
        LastTouchBound(log[..n], y);
      }
      ConsByLastTouch(log[n], rest, log);
    }
  }

  /** Forgetting what lies beyond the limit before moving a key to the front makes no difference. */
  lemma {:induction false} TakeThenDrop<K(!new)>(keys: seq<K>, key: K, n: nat)
    requires Distinct(keys) && n >= 1
    ensures Taken(Dropped(Taken(keys, n), key), n - 1) == Taken(Dropped(keys, key), n - 1)
  {
    if |keys| > n {
      var rest := keys[1..];
      assert Taken(keys, n)[1..] == Taken(rest, n - 1);
      if keys[0] == key {
        TakeThenDropHead(keys, key, n);
      } else if n > 1 {
        TakeThenDrop(rest, key, n - 1);
        TakenCons(keys[0], Dropped(Taken(rest, n - 1), key), n - 1);
        TakenCons(keys[0], Dropped(rest, key), n - 1);
      }
    }
  }

  lemma {:induction false} DroppedAbsent<K(!new)>(keys: seq<K>, key: K)
    requires forall i | 0 <= i < |keys| :: keys[i] != key
    ensures Dropped(keys, key) == keys
  {
    if keys != [] { DroppedAbsent(keys[1..], key); }
  }

  lemma TakeThenDropHead<K(!new)>(keys: seq<K>, key: K, n: nat)
    requires Distinct(keys) && 1 <= n < |keys| && keys[0] == key
    ensures Taken(Dropped(Taken(keys, n), key), n - 1) == Taken(Dropped(keys, key), n - 1)
  {
    var rest := keys[1..];
    assert Taken(keys, n)[1..] == Taken(rest, n - 1);
    assert forall i | 0 <= i < |rest| :: rest[i] == keys[i + 1];
    DroppedAbsent(rest, key);
    DroppedAbsent(Taken(rest, n - 1), key);
  }

  lemma TakenCons<K(!new)>(x: K, s: seq<K>, n: nat)
    requires n >= 1
    ensures Taken([x] + s, n) == [x] + Taken(s, n - 1)
  {
  }

  lemma TouchedKeys<K(!new), V(!new)>(s: Entries<K, V>, capacity: nat, key: K, value: V, log: seq<K>)
    requires KeysOf(s) == Taken(Recency(log), capacity)
    ensures KeysOf(Touched(s, capacity, key, value)) == Taken(Recency(log + [key]), capacity)
  {
    var r := Recency(log);
    assert (log + [key])[..|log|] == log;
    KeysOfRemoved(s, key);
    assert KeysOf([(key, value)] + Removed(s, key)) == [key] + Dropped(KeysOf(s), key);
    assert KeysOf(Touched(s, capacity, key, value)) == Taken([key] + Dropped(KeysOf(s), key), capacity);
    if capacity >= 1 {
      RecencyDistinct(log);
      TakeThenDrop(r, key, capacity);
      TakenCons(key, Dropped(KeysOf(s), key), capacity);
      TakenCons(key, Dropped(r, key), capacity);
    }
  }

  /** After any run, the cache holds exactly the `capacity` most recently touched distinct keys. */
  lemma {:induction false} HoldsMostRecentKeys<K(!new), V(!new)>(capacity: nat, ops: seq<Op<K, V>>)
    ensures KeysOf(After(capacity, ops)) == Taken(Recency(TouchLog(capacity, ops)), capacity)
  {
    if ops != [] {
      var n := |ops| - 1;
      HoldsMostRecentKeys(capacity, ops[..n]);
      var before, log, op := After(capacity, ops[..n]), TouchLog(capacity, ops[..n]), ops[n];
      if op.Store? {
        TouchedKeys(before, capacity, op.key, op.value, log);
      } else if Found(before, op.key).Some? {
        TouchedKeys(before, capacity, op.key, Found(before, op.key).value, log);
      } else {
        assert log + [] == log;
      }
    }
  }

  ghost function LastStored<K, V>(ops: seq<Op<K, V>>, key: K): Option<V> {
    if ops == [] then None
    else if ops[|ops| - 1].Store? && ops[|ops| - 1].key == key then Some(ops[|ops| - 1].value)
    else LastStored(ops[..|ops| - 1], key)
  }

  lemma {:induction false} RemovedMembers<K(!new), V(!new)>(s: Entries<K, V>, key: K, pair: (K, V))
    requires pair in Removed(s, key)
    ensures pair in s && pair.0 != key
  {
    if pair in Removed(s[1..], key) { RemovedMembers(s[1..], key, pair); }
  }

  lemma {:induction false} FoundIsMember<K(!new), V(!new)>(s: Entries<K, V>, key: K)
    requires Found(s, key).Some?
    ensures (key, Found(s, key).value) in s
  {
    if s[0].0 != key { FoundIsMember(s[1..], key); }
  }

  lemma TouchedMembers<K(!new), V(!new)>(s: Entries<K, V>, capacity: nat, key: K, value: V, pair: (K, V))
    requires pair in Touched(s, capacity, key, value)
    ensures pair == (key, value) || (pair in s && pair.0 != key)
  {
    if pair != (key, value) {
      assert pair in Removed(s, key);
      RemovedMembers(s, key, pair);
    }
  }

  /** ... each with the value it was last stored with. */
  lemma {:induction false} HoldsLastStoredValues<K(!new), V(!new)>(capacity: nat, ops: seq<Op<K, V>>, pair: (K, V))
    requires pair in After(capacity, ops)
    ensures LastStored(ops, pair.0) == Some(pair.1)
  {
    var n := |ops| - 1;
    var before, op := After(capacity, ops[..n]), ops[n];
    if op.Store? {
      TouchedMembers(before, capacity, op.key, op.value, pair);
      if pair != (op.key, op.value) { HoldsLastStoredValues(capacity, ops[..n], pair); }
    } else {
      if Found(before, op.key).Some? {
        FoundIsMember(before, op.key);
        TouchedMembers(before, capacity, op.key, Found(before, op.key).value, pair);
      }
      HoldsLastStoredValues(capacity, ops[..n], pair);
    }
  }

  // ---------------------------------------------------------------------------------------------
  // Memoised GeoIP lookups

  /** Every cached answer is what the database says. */
  ghost predicate Sound<K(!new), V(!new)>(s: Entries<K, V>, lookup: K -> V) {
    forall pair | pair in s :: pair.1 == lookup(pair.0)
  }

  lemma SoundAfterTouch<K(!new), V(!new)>(s: Entries<K, V>, capacity: nat, key: K, lookup: K -> V)
    requires Sound(s, lookup)
    ensures Sound(Touched(s, capacity, key, lookup(key)), lookup)
    ensures Found(s, key).Some? ==> Found(s, key).value == lookup(key)
  {
    forall pair | pair in Touched(s, capacity, key, lookup(key)) ensures pair.1 == lookup(pair.0) {
      TouchedMembers(s, capacity, key, lookup(key), pair);
    }
    if Found(s, key).Some? {
      FoundIsMember(s, key);
      assert (key, Found(s, key).value) in s;
    }
  }

  /** A GeoIP record: the country the address is in and the one it is registered in. */
  datatype Record = Record(iso: string, registered: string)

  type GeoDb = string -> Option<Record>

  function CountryOf(db: GeoDb, ip: string): string {
    match db(ip)
    case None => "UNKNOWN"
    case Some(r) => if r.iso != "" then r.iso else if r.registered != "" then r.registered else "UNKNOWN"
  }

  /** The country an address is in comes before the one it is registered in; an address without a
      record, or whose record names neither, is in "UNKNOWN". */
  lemma CountryMeaning(db: GeoDb, ip: string, iso: string, registered: string)
    ensures db(ip) == None ==> CountryOf(db, ip) == "UNKNOWN"
    ensures db(ip) == Some(Record(iso, registered)) && iso != "" ==> CountryOf(db, ip) == iso
    ensures db(ip) == Some(Record("", registered)) && registered != "" ==> CountryOf(db, ip) == registered
    ensures db(ip) == Some(Record("", "")) ==> CountryOf(db, ip) == "UNKNOWN"
  {
  }

  method GetCachedCountry(cache: Lru<string, string>, db: GeoDb, ip: string) returns (country: string)
    requires cache.Valid() && Sound(cache.Contents(), x => CountryOf(db, x))
    modifies cache, cache.order
    ensures cache.Valid() && Sound(cache.Contents(), x => CountryOf(db, x))
    ensures country == CountryOf(db, ip)
  {
    ghost var lookup := x => CountryOf(db, x);
    SoundAfterTouch(cache.Contents(), cache.Capacity(), ip, lookup);
    var cached := cache.Get(ip);
    if cached.Some? {
      return cached.value;
    }
    country := "UNKNOWN";
    var record := db(ip);
    if record.Some? {
      if record.value.iso != "" {
        country := record.value.iso;
      } else if record.value.registered != "" {
        country := record.value.registered;
      }
    }
    cache.Set(ip, country);
  }

  datatype AsnResult = AsnResult(asn: nat, org: string)

  type AsnDb = string -> Option<AsnResult>

  function AsnOf(db: AsnDb, ip: string): AsnResult {
    match db(ip) case None => AsnResult(0, "") case Some(r) => r
  }

  method GetCachedAsn(cache: Lru<string, AsnResult>, db: AsnDb, ip: string) returns (result: AsnResult)
    requires cache.Valid() && Sound(cache.Contents(), x => AsnOf(db, x))
    modifies cache, cache.order
    ensures cache.Valid() && Sound(cache.Contents(), x => AsnOf(db, x))
    ensures result == AsnOf(db, ip)
  {
    ghost var lookup := x => AsnOf(db, x);
    SoundAfterTouch(cache.Contents(), cache.Capacity(), ip, lookup);
    var cached := cache.Get(ip);
    if cached.Some? {
      return cached.value;
    }
    var record := db(ip);
    result := if record.Some? then record.value else AsnResult(0, "");
    cache.Set(ip, result);
  }
}
