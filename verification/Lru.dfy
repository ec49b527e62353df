/** The bounded LRU of internal/cache/lru.go.
    Recency gives its meaning: keys in order of last use, most recent first, and a value per key.
    Lru.Cache is the doubly linked list plus map, proved to move through exactly those contents. */
module Recency {

  datatype Option<T> = None | Some(value: T)

  datatype Item<V> = Item(key: string, val: V)

  /** What the cache holds: keys, most recently used first, and the value of each. */
  datatype Contents<V> = Contents(keys: seq<string>, vals: map<string, V>)

  predicate Distinct<T(==)>(s: seq<T>) {
    forall i, j :: 0 <= i < j < |s| ==> s[i] != s[j]
  }

  ghost predicate Ok<V>(c: Contents<V>, cap: nat) {
    && Distinct(c.keys)
    && (forall k :: k in c.keys <==> k in c.vals)
    && |c.keys| <= cap
  }

  function Empty<V>(): Contents<V> {
    Contents([], map[])
  }

  /** The list with one key taken out. */
  function Without(keys: seq<string>, key: string): seq<string> {
    if keys == [] then []
    else if keys[0] == key then keys[1..]
    else [keys[0]] + Without(keys[1..], key)
  }

  function Peek<V>(c: Contents<V>, key: string): Option<V> {
    if key in c.vals then Some(c.vals[key]) else None
  }

  /** Get: a present key moves to the front. */
  function Touched<V>(c: Contents<V>, key: string): Contents<V> {
    if key in c.vals then c.(keys := [key] + Without(c.keys, key)) else c
  }

  /** Add: the key goes to the front with its new value; contents that outgrow cap lose their last key. */
  function Added<V>(c: Contents<V>, cap: nat, key: string, val: V): Contents<V> {
    var all := [key] + Without(c.keys, key);
    if key in c.vals || |all| <= cap then Contents(all, c.vals[key := val])
    else Contents(all[..|all| - 1], c.vals[key := val] - {all[|all| - 1]})
  }

  /** What Add reports to onEvict. */
  function AddEvicts<V>(c: Contents<V>, cap: nat, key: string, val: V): seq<Item<V>> {
    var all := [key] + Without(c.keys, key);
    var last := all[|all| - 1];
    if key in c.vals || |all| <= cap || last !in c.vals[key := val] then [] else [Item(last, c.vals[key := val][last])]
  }

  /** A key that was absent goes to the front. */
  function Pushed<V>(c: Contents<V>, key: string, val: V): Contents<V> {
    Contents([key] + c.keys, c.vals[key := val])
  }

  /** Contents one over cap lose their last key. */
  function Overflowed<V>(c: Contents<V>, cap: nat): Contents<V> {
    if |c.keys| <= cap then c else Contents(c.keys[..cap], c.vals - {c.keys[cap]})
  }

  function OverflowEvicts<V>(c: Contents<V>, cap: nat): seq<Item<V>> {
    if |c.keys| <= cap || c.keys[cap] !in c.vals then [] else [Item(c.keys[cap], c.vals[c.keys[cap]])]
  }

  function Deleted<V>(c: Contents<V>, key: string): Contents<V> {
    Contents(Without(c.keys, key), c.vals - {key})
  }

  // ---- what the operations keep ------------------------------------------

  lemma {:induction false} RemovedAt<T>(s: seq<T>, i: nat)
    requires i < |s| && Distinct(s)
    ensures forall e :: e in s[..i] + s[i + 1..] <==> e in s && e != s[i]
    ensures Distinct(s[..i] + s[i + 1..])
  {
    var rest := s[..i] + s[i + 1..];
    forall e | e in s && e != s[i]
      ensures e in rest
    {
      var j :| 0 <= j < |s| && s[j] == e;
      assert rest[if j < i then j else j - 1] == e;
    }
    forall e | e in rest
      ensures e in s && e != s[i]
    {
      var j :| 0 <= j < |rest| && rest[j] == e;
      assert s[if j < i then j else j + 1] == e;
    }
  }

  /** Taking out the key at position i cuts the list there. */
  lemma {:induction false} WithoutAt(keys: seq<string>, i: nat)
    requires i < |keys| && Distinct(keys)
    ensures Without(keys, keys[i]) == keys[..i] + keys[i + 1..]
  {
    if i > 0 { WithoutAt(keys[1..], i - 1); }
  }

  lemma {:induction false} WithoutAbsent(keys: seq<string>, key: string)
    requires key !in keys
    ensures Without(keys, key) == keys
  {
    if keys != [] { WithoutAbsent(keys[1..], key); }
  }

  lemma {:induction false} WithoutKeeps(keys: seq<string>, key: string)
    requires Distinct(keys)
    ensures Distinct(Without(keys, key))
    ensures forall k :: k in Without(keys, key) <==> k in keys && k != key
    ensures |Without(keys, key)| == |keys| - if key in keys then 1 else 0
  {
    if key in keys {
      var i :| 0 <= i < |keys| && keys[i] == key;
      WithoutAt(keys, i);
      RemovedAt(keys, i);
    } else {
      WithoutAbsent(keys, key);
    }
  }

  lemma {:induction false} TouchKeeps<V>(c: Contents<V>, cap: nat, key: string)
    requires Ok(c, cap)
    ensures Ok(Touched(c, key), cap)
    ensures key in c.vals ==> Touched(c, key).keys[0] == key
  {
    WithoutKeeps(c.keys, key);
  }

  /** Adding where there is room, or over a present key: nothing leaves. */
  lemma {:induction false} AddFits<V>(c: Contents<V>, cap: nat, key: string, val: V)
    requires Ok(c, cap) && (key in c.vals || |c.keys| < cap)
    ensures Added(c, cap, key, val) == Contents([key] + Without(c.keys, key), c.vals[key := val])
    ensures AddEvicts(c, cap, key, val) == []
  {
    WithoutKeeps(c.keys, key);
  }

  /** Adding to a full list: the last key leaves, and it is not the one added. */
  lemma {:induction false} AddPushesOut<V>(c: Contents<V>, cap: nat, key: string, val: V)
    requires Ok(c, cap) && 1 <= cap && key !in c.vals && |c.keys| == cap
    ensures var last := c.keys[cap - 1];
            && last in c.vals && last != key
            && Added(c, cap, key, val) == Contents([key] + c.keys[..cap - 1], c.vals[key := val] - {last})
            && AddEvicts(c, cap, key, val) == [Item(last, c.vals[last])]
  {
    assert c.keys[cap - 1] in c.keys;
    WithoutAbsent(c.keys, key);
    PushShape(c.keys, key);
    EvictValue(c.vals, key, val, c.keys[cap - 1]);
  }

  lemma {:induction false} PushShape(keys: seq<string>, key: string)
    requires keys != []
    ensures var all, n := [key] + keys, |keys|; all[n] == keys[n - 1] && all[..n] == [key] + keys[..n - 1]
  {
  }

  lemma {:induction false} EvictValue<V>(vals: map<string, V>, key: string, val: V, last: string)
    requires last in vals && last != key
    ensures last in vals[key := val] && vals[key := val][last] == vals[last]
  {
  }

  /** Add keeps the contents in order and within cap. Afterwards key is first and maps to val; every other key
      keeps its value, except the one evicted, which is reported with its value and is never key itself. */
  lemma {:induction false} AddKeeps<V>(c: Contents<V>, cap: nat, key: string, val: V)
    requires Ok(c, cap) && 1 <= cap
    ensures var r, out := Added(c, cap, key, val), AddEvicts(c, cap, key, val);
            && Ok(r, cap) && r.keys[0] == key && key in r.vals && r.vals[key] == val
            && (forall k :: k in r.vals && k != key ==> k in c.vals && r.vals[k] == c.vals[k])
            && (forall k :: k in c.vals && k !in r.vals ==> out == [Item(k, c.vals[k])])
            && (out != [] ==> |c.keys| == cap && out[0].key in c.vals && out[0].key !in r.vals)
  {
    if key in c.vals || |c.keys| < cap {
      AddFits(c, cap, key, val);
      WithoutKeeps(c.keys, key);
    } else {
      AddPushesOut(c, cap, key, val);
      RemovedAt(c.keys, cap - 1);
      assert c.keys[..cap - 1] + c.keys[cap..] == c.keys[..cap - 1];
    }
  }

  /** Adding an absent key is a push followed by an eviction when that overflows. */
  lemma {:induction false} AddedIsPush<V>(c: Contents<V>, cap: nat, key: string, val: V)
    requires Ok(c, cap) && 1 <= cap && key !in c.vals
    ensures Added(c, cap, key, val) == Overflowed(Pushed(c, key, val), cap)
    ensures AddEvicts(c, cap, key, val) == OverflowEvicts(Pushed(c, key, val), cap)
  {
    WithoutAbsent(c.keys, key);
    var p := Pushed(c, key, val);
    if |c.keys| < cap {
      AddFits(c, cap, key, val);
    } else {
      AddPushesOut(c, cap, key, val);
      var last := c.keys[cap - 1];
      assert p.keys[..cap] == [key] + c.keys[..cap - 1];
      assert p.keys[cap] == last && p.vals[last] == c.vals[last];
    }
  }

  lemma {:induction false} DeleteKeeps<V>(c: Contents<V>, cap: nat, key: string)
    requires Ok(c, cap)
    ensures Ok(Deleted(c, key), cap)
    ensures key !in Deleted(c, key).vals
    ensures forall k :: k in c.vals && k != key ==> k in Deleted(c, key).vals && Deleted(c, key).vals[k] == c.vals[k]
  {
    WithoutKeeps(c.keys, key);
  }

  // ---- whole runs --------------------------------------------------------

  /** One operation; Use is Get, Put is Add, Claim is GetOrAdd, Forget is Delete. */
  datatype Op<V> = Use(key: string) | Put(key: string, val: V) | Claim(key: string, val: V) | Forget(key: string)

  function Stepped<V>(c: Contents<V>, cap: nat, op: Op<V>): Contents<V> {
    match op
    case Use(k) => Touched(c, k)
    case Put(k, v) => Added(c, cap, k, v)
    case Claim(k, v) => if k in c.vals then Touched(c, k) else Added(c, cap, k, v)
    case Forget(k) => Deleted(c, k)
  }

  function Ran<V>(cap: nat, ops: seq<Op<V>>): Contents<V> {
    if ops == [] then Empty() else Stepped(Ran(cap, ops[..|ops| - 1]), cap, ops[|ops| - 1])
  }

  /** The order of last use over all keys ever stored and not deleted: what a list without a bound would hold. A Get
      that finds nothing is no use. */
  function LastUse<V>(cap: nat, ops: seq<Op<V>>): seq<string> {
    if ops == [] then []
    else
      var n := |ops| - 1;
      var keys := LastUse(cap, ops[..n]);
      match ops[n]
      case Use(k) => if k in Ran(cap, ops[..n]).vals then [k] + Without(keys, k) else keys
      case Put(k, _) => [k] + Without(keys, k)
      case Claim(k, _) => [k] + Without(keys, k)
      case Forget(k) => Without(keys, k)
  }

  /** In every run the contents stay in order and within cap. */
  lemma {:induction false} RunKeeps<V>(cap: nat, ops: seq<Op<V>>)
    requires 1 <= cap
    ensures Ok(Ran(cap, ops), cap)
  {
    if ops != [] {
      var c, op := Ran(cap, ops[..|ops| - 1]), ops[|ops| - 1];
      RunKeeps(cap, ops[..|ops| - 1]);
      match op
      case Use(k) => TouchKeeps(c, cap, k);
      case Put(k, v) => AddKeeps(c, cap, k, v);
      case Claim(k, v) => TouchKeeps(c, cap, k); AddKeeps(c, cap, k, v);
      case Forget(k) => DeleteKeeps(c, cap, k);
    }
  }

  lemma {:induction false} WithoutAppend(a: seq<string>, b: seq<string>, key: string)
    ensures Without(a + b, key) == if key in a then Without(a, key) + b else a + Without(b, key)
  {
    if a == [] {
      assert a + b == b;
      assert a + Without(b, key) == Without(b, key);
    } else {
      var head, rest := a[0], a[1..];
      assert a == [head] + rest;
      assert (a + b)[0] == head && (a + b)[1..] == rest + b;
      if head != key {
        WithoutAppend(rest, b, key);
        Cons(head, Without(rest, key), b);
        Cons(head, rest, Without(b, key));
      }
    }
  }

  lemma {:induction false} Cons(x: string, a: seq<string>, b: seq<string>)
    ensures [x] + (a + b) == ([x] + a) + b
  {
  }

  lemma {:induction false} WithoutPrefix(small: seq<string>, big: seq<string>, key: string)
    requires small <= big
    ensures Without(small, key) <= Without(big, key)
  {
    var rest := big[|small|..];
    assert big == small + rest;
    WithoutAppend(small, rest, key);
    if key !in small { WithoutAbsent(small, key); }
  }

  /** LRU keeps exactly the most recently used keys: in every run the cached keys are the front of the order of last
      use. */
  lemma {:induction false} MostRecentSurvive<V>(cap: nat, ops: seq<Op<V>>)
    requires 1 <= cap
    ensures Ran(cap, ops).keys <= LastUse(cap, ops)
  {
    if ops != [] {
      var n := |ops| - 1;
      MostRecentSurvive(cap, ops[..n]);
      RunKeeps(cap, ops[..n]);
      WithoutPrefix(Ran(cap, ops[..n]).keys, LastUse(cap, ops[..n]), ops[n].key);
    }
  }
}

module Lru {
  import opened Recency

  class Entry<V> {
    const key: string
    var val: V
    var prev: Entry?<V>
    var next: Entry?<V>

    constructor (key: string, val: V)
      ensures this.key == key && this.val == val && prev == null && next == null
    {
      this.key, this.val, prev, next := key, val, null, null;
    }
  }

  class Cache<V> {
    const cap: nat
    var head: Entry?<V>
    var tail: Entry?<V>
    var m: map<string, Entry<V>>
    /** Every (key, val) the onEvict callback has been invoked with, oldest first. */
    var evicted: seq<Item<V>>
    /** The nodes from head to tail. */
    ghost var order: seq<Entry<V>>
    /** Every node this list has allocated. */
    ghost var repr: set<Entry<V>>

    static ghost function At(nodes: seq<Entry<V>>, i: int): Entry?<V> {
      if 0 <= i < |nodes| then nodes[i] else null
    }

    /** prev, next, head and tail describe one list of distinct nodes, read the same in both directions. */
    ghost predicate Linked()
      reads this`head, this`tail, this`order, this`repr, repr`prev, repr`next
    {
      && (forall x :: x in order ==> x in repr)
      && Distinct(order)
      && (forall i {:trigger order[i].prev} :: 0 <= i < |order| ==> order[i].prev == At(order, i - 1))
      && (forall i {:trigger order[i].next} :: 0 <= i < |order| ==> order[i].next == At(order, i + 1))
      && head == At(order, 0)
      && tail == At(order, |order| - 1)
    }

    /** The map holds exactly the listed nodes, each under its own key. */
    static ghost predicate IndexedBy(m: map<string, Entry<V>>, nodes: seq<Entry<V>>) {
      && (forall k :: k in m ==> m[k] in nodes && m[k].key == k)
      && (forall e :: e in nodes ==> e.key in m && m[e.key] == e)
      && |m| == |nodes|
    }

    static ghost function KeysOf(nodes: seq<Entry<V>>): (r: seq<string>) {
      seq(|nodes|, i requires 0 <= i < |nodes| => nodes[i].key)
    }

    ghost predicate Valid()
      reads this, repr
    {
      1 <= cap && Linked() && IndexedBy(m, order) && |order| <= cap
    }

    /** The value stored under each key. */
    static ghost function ValsOf(m: map<string, Entry<V>>): map<string, V>
      reads m.Values`val
    {
      map k | k in m :: m[k].val
    }

    static lemma {:induction false} ValsAre(m: map<string, Entry<V>>, vals: map<string, V>)
      requires m.Keys == vals.Keys
      requires forall k :: k in m ==> m[k].val == vals[k]
      ensures ValsOf(m) == vals
    {
    }

    /** The abstract value. */
    ghost function Held(): Contents<V>
      reads this`m, this`order, m.Values`val
    {
      Contents(KeysOf(order), ValsOf(m))
    }

    constructor (capacity: int)
      ensures Valid() && Held() == Empty() && evicted == [] && repr == {}
      ensures cap == if capacity < 1 then 1 else capacity
    {
      cap := if capacity < 1 then 1 else capacity;
      head, tail, m, evicted, order, repr := null, null, map[], [], [], {};
    }

    // ---- the list and the map, as values ---------------------------------

    /** Distinct nodes indexed by key have distinct keys. */
    static lemma {:induction false} KeysDistinct(m: map<string, Entry<V>>, nodes: seq<Entry<V>>)
      requires IndexedBy(m, nodes) && Distinct(nodes)
      ensures Distinct(KeysOf(nodes))
      ensures forall k :: k in KeysOf(nodes) <==> k in m
    {
      var keys := KeysOf(nodes);
      forall i | 0 <= i < |nodes|
        ensures keys[i] in m && m[keys[i]] == nodes[i]
      {
        assert nodes[i] in nodes;
      }
      forall k | k in m
        ensures k in keys
      {
        var i :| 0 <= i < |nodes| && nodes[i] == m[k];
        assert keys[i] == k;
      }
    }

    static lemma {:induction false} IndexedWithout(m: map<string, Entry<V>>, nodes: seq<Entry<V>>, i: nat)
      requires IndexedBy(m, nodes) && Distinct(nodes) && i < |nodes|
      ensures IndexedBy(m - {nodes[i].key}, nodes[..i] + nodes[i + 1..])
    {
      var e, rest := nodes[i], nodes[..i] + nodes[i + 1..];
      assert e in nodes;
      RemovedAt(nodes, i);
      var m' := m - {e.key};
      assert |m'| == |m| - 1 by { assert m'.Keys == m.Keys - {e.key}; }
      forall k | k in m'
        ensures m'[k] in rest && m'[k].key == k
      {
        assert m[k] in nodes && m[k] != e;
      }
      forall x | x in rest
        ensures x.key in m' && m'[x.key] == x
      {
        assert x in nodes;
      }
    }

    static lemma {:induction false} IndexedWith(m: map<string, Entry<V>>, nodes: seq<Entry<V>>, e: Entry<V>)
      requires IndexedBy(m, nodes) && e.key !in m
      ensures IndexedBy(m[e.key := e], [e] + nodes)
    {
      var m', now := m[e.key := e], [e] + nodes;
      assert |m'| == |m| + 1 by { assert m'.Keys == m.Keys + {e.key}; }
      assert forall x :: x in now <==> x == e || x in nodes;
    }

    static lemma {:induction false} KeysWith(nodes: seq<Entry<V>>, e: Entry<V>)
      ensures KeysOf([e] + nodes) == [e.key] + KeysOf(nodes)
    {
    }

    /** Moving node i to the front: the map still indexes the list. */
    static lemma {:induction false} IndexedMoved(m: map<string, Entry<V>>, nodes: seq<Entry<V>>, i: nat)
      requires IndexedBy(m, nodes) && Distinct(nodes) && i < |nodes|
      ensures IndexedBy(m, [nodes[i]] + (nodes[..i] + nodes[i + 1..]))
    {
      var e, rest := nodes[i], nodes[..i] + nodes[i + 1..];
      RemovedAt(nodes, i);
      assert e in nodes;
      forall x ensures x in [e] + rest <==> x in nodes {
        assert x in [e] + rest <==> x == e || x in rest;
      }
    }

    static lemma {:induction false} KeysWithout(nodes: seq<Entry<V>>, i: nat)
      requires Distinct(KeysOf(nodes)) && i < |nodes|
      ensures KeysOf(nodes[..i] + nodes[i + 1..]) == Without(KeysOf(nodes), nodes[i].key)
    {
      WithoutAt(KeysOf(nodes), i);
    }

    /** Where e is, and what moving it to the front does to keys and map. */
    static lemma {:induction false} Front(m: map<string, Entry<V>>, nodes: seq<Entry<V>>, e: Entry<V>) returns (i: nat)
      requires IndexedBy(m, nodes) && Distinct(nodes) && e.key in m && m[e.key] == e
      ensures i < |nodes| && nodes[i] == e
      ensures IndexedBy(m, [e] + (nodes[..i] + nodes[i + 1..]))
      ensures KeysOf([e] + (nodes[..i] + nodes[i + 1..])) == [e.key] + Without(KeysOf(nodes), e.key)
    {
      i :| 0 <= i < |nodes| && nodes[i] == e;
      IndexedMoved(m, nodes, i);
      var rest := nodes[..i] + nodes[i + 1..];
      assert KeysOf(rest) == Without(KeysOf(nodes), e.key) by { KeysDistinct(m, nodes); KeysWithout(nodes, i); }
      KeysWith(rest, e);
    }

    /** Where e is, and what taking it out does to keys and map. */
    static lemma {:induction false} Cut(m: map<string, Entry<V>>, nodes: seq<Entry<V>>, e: Entry<V>) returns (i: nat)
      requires IndexedBy(m, nodes) && Distinct(nodes) && e in nodes
      ensures i < |nodes| && nodes[i] == e && e.key in m && m[e.key] == e
      ensures IndexedBy(m - {e.key}, nodes[..i] + nodes[i + 1..])
      ensures KeysOf(nodes[..i] + nodes[i + 1..]) == Without(KeysOf(nodes), e.key)
    {
      i :| 0 <= i < |nodes| && nodes[i] == e;
      IndexedWithout(m, nodes, i);
      KeysDistinct(m, nodes);
      KeysWithout(nodes, i);
    }

    // ---- pointer surgery ---------------------------------------------------

    method PushFront(e: Entry<V>)
      requires Linked() && e !in order
      modifies this`head, this`tail, this`order, this`repr, e`prev, e`next, repr`prev
      ensures Linked() && order == [e] + old(order) && repr == old(repr) + {e}
    {
      e.prev := null;
      e.next := head;
      if head != null {
        head.prev := e;
      }
      head := e;
      if tail == null {
        tail := e;
      }
      order, repr := [e] + order, repr + {e};
    }

    /** The neighbours of node i, or head and tail, are made to bypass it. */
    method Bypass(e: Entry<V>, ghost i: nat)
      requires Linked() && i < |order| && order[i] == e
      modifies this`head, this`tail, repr`prev, repr`next
      ensures head == (if i == 0 then At(order, 1) else old(head))
      ensures tail == (if i == |order| - 1 then At(order, i - 1) else old(tail))
      ensures forall k {:trigger order[k].next} :: 0 <= k < |order| && k != i ==>
                order[k].next == if k == i - 1 then At(order, i + 1) else At(order, k + 1)
      ensures forall k {:trigger order[k].prev} :: 0 <= k < |order| && k != i ==>
                order[k].prev == if k == i + 1 then At(order, i - 1) else At(order, k - 1)
    {
      assert e.prev == At(order, i - 1) && e.next == At(order, i + 1);
      assert e.prev != null ==> e.prev in order && e.prev in repr;
      assert e.next != null ==> e.next in order && e.next in repr;
      if e.prev != null {
        e.prev.next := e.next;
      } else {
        head := e.next;
      }
      if e.next != null {
        e.next.prev := e.prev;
      } else {
        tail := e.prev;
      }
      e.prev, e.next := null, null;
    }

    method Unlink(e: Entry<V>, ghost i: nat)
      requires Linked() && i < |order| && order[i] == e
      modifies this`head, this`tail, this`order, repr`prev, repr`next
      ensures Linked() && order == old(order)[..i] + old(order)[i + 1..]
    {
      hide At;
      ghost var was := order;
      Bypass(e, i);
      order := was[..i] + was[i + 1..];
      forall k | 0 <= k < |order|
        ensures order[k].prev == At(order, k - 1) && order[k].next == At(order, k + 1)
      {
        assert order[k] == was[if k < i then k else k + 1];
        AtWithout(was, i, k - 1);
        AtWithout(was, i, k + 1);
      }
      AtWithout(was, i, 0);
      AtWithout(was, i, |order| - 1);
      RemovedAt(was, i);
    }

    /** Where the nodes are once node i is gone. */
    static lemma {:induction false} AtWithout(nodes: seq<Entry<V>>, i: nat, k: int)
      requires i < |nodes|
      ensures At(nodes[..i] + nodes[i + 1..], k) == if k < i then At(nodes, k) else At(nodes, k + 1)
    {
    }

    method MoveToFront(e: Entry<V>, ghost i: nat)
      requires Linked() && i < |order| && order[i] == e
      modifies this`head, this`tail, this`order, this`repr, repr`prev, repr`next
      ensures Linked() && order == [e] + (old(order)[..i] + old(order)[i + 1..]) && repr == old(repr)
    {
      if head == e {
        assert i == 0;
        return;
      }
      assert e in repr;
      RemovedAt(order, i);
      Unlink(e, i);
      PushFront(e);
    }

    // ---- operations ----------------------------------------------------------

    /** Promote the node of a present key; the shared part of Get, Add and GetOrAdd. */
    method Promote(e: Entry<V>)
      requires Valid() && e.key in m && m[e.key] == e
      modifies this`head, this`tail, this`order, this`repr, repr`prev, repr`next
      ensures Valid() && repr == old(repr)
      ensures KeysOf(order) == [e.key] + Without(KeysOf(old(order)), e.key)
    {
      ghost var i := Front(m, order, e);
      MoveToFront(e, i);
    }

    method Get(key: string) returns (r: Option<V>)
      requires Valid()
      modifies this`head, this`tail, this`order, this`repr, repr`prev, repr`next
      ensures Valid() && repr == old(repr)
      ensures Held() == Touched(old(Held()), key)
      ensures r == Peek(old(Held()), key)
    {
      if key !in m {
        return None;
      }
      var e := m[key];
      Promote(e);
      r := Some(e.val);
    }

    /** The update-existing path of Add. */
    method Overwrite(e: Entry<V>, val: V)
      requires Valid() && e.key in m && m[e.key] == e
      modifies this`head, this`tail, this`order, this`repr, repr
      ensures Valid() && repr == old(repr)
      ensures KeysOf(order) == [e.key] + Without(KeysOf(old(order)), e.key)
      ensures ValsOf(m) == old(ValsOf(m))[e.key := val]
    {
      SetVal(e, val);
      Promote(e);
    }

    method SetVal(e: Entry<V>, val: V)
      requires Valid() && e.key in m && m[e.key] == e
      modifies e`val
      ensures Valid() && ValsOf(m) == old(ValsOf(m))[e.key := val]
    {
      ghost var vals := ValsOf(m);
      e.val := val;
      assert ValsOf(m) == vals[e.key := val] by { ValsAre(m, vals[e.key := val]); }
    }

    /** Put a node at the front and into the map, under a key that is not present. */
    method PushNode(e: Entry<V>)
      requires Linked() && IndexedBy(m, order) && e !in order && e.key !in m
      modifies this`head, this`tail, this`order, this`repr, this`m, e`prev, e`next, repr`prev
      ensures Linked() && IndexedBy(m, order) && order == [e] + old(order) && repr == old(repr) + {e}
      ensures m == old(m)[e.key := e]
    {
      IndexedWith(m, order, e);
      m := m[e.key := e];
      PushFront(e);
    }

    method PushNew(key: string, val: V) returns (ghost node: Entry<V>)
      requires Linked() && IndexedBy(m, order) && key !in m
      modifies this`head, this`tail, this`order, this`repr, this`m, repr`prev
      ensures Linked() && IndexedBy(m, order) && |order| == |old(order)| + 1
      ensures fresh(node) && repr == old(repr) + {node}
      ensures Held() == Pushed(old(Held()), key, val)
    {
      ghost var vals := ValsOf(m);
      var e := new Entry(key, val);
      node := e;
      KeysWith(order, e);
      PushNode(e);
      assert ValsOf(m) == vals[key := val] by { ValsAre(m, vals[key := val]); }
    }

    /** Take node i out of list and map, and report it. */
    method Drop(e: Entry<V>, ghost i: nat)
      requires Linked() && i < |order| && order[i] == e
      requires IndexedBy(m - {e.key}, order[..i] + order[i + 1..])
      modifies this`head, this`tail, this`order, this`m, this`evicted, repr`prev, repr`next
      ensures Linked() && IndexedBy(m, order) && order == old(order)[..i] + old(order)[i + 1..]
      ensures m == old(m) - {e.key} && evicted == old(evicted) + [Item(e.key, e.val)]
    {
      hide IndexedBy, At;
      Unlink(e, i);
      m, evicted := m - {e.key}, evicted + [Item(e.key, e.val)];
    }

    /** Take a listed node out and report it. */
    method DropReported(e: Entry<V>)
      requires Linked() && IndexedBy(m, order) && e in order
      modifies this`head, this`tail, this`order, this`m, this`evicted, repr`prev, repr`next
      ensures Linked() && IndexedBy(m, order) && |order| == |old(order)| - 1
      ensures KeysOf(order) == Without(KeysOf(old(order)), e.key)
      ensures ValsOf(m) == old(ValsOf(m)) - {e.key}
      ensures e.key in old(m) && evicted == old(evicted) + [Item(e.key, old(ValsOf(m))[e.key])]
    {
      ghost var vals := ValsOf(m);
      ghost var i := Cut(m, order, e);
      Drop(e, i);
      assert ValsOf(m) == vals - {e.key} by { ValsAre(m, vals - {e.key}); }
    }

    /** Drop the tail when the list has outgrown cap, and report it to onEvict. */
    method EvictOverflow()
      requires 1 <= cap && Linked() && IndexedBy(m, order) && |order| <= cap + 1
      modifies this`head, this`tail, this`order, this`m, this`evicted, repr`prev, repr`next
      ensures Valid()
      ensures Held() == Overflowed(old(Held()), cap)
      ensures evicted == old(evicted) + OverflowEvicts(old(Held()), cap)
    {
      if |m| > cap {
        var victim := tail;
        if victim != null {
          ghost var keys := KeysOf(order);
          assert victim == order[cap] && keys[cap] == victim.key;
          assert Without(keys, keys[cap]) == keys[..cap] by { KeysDistinct(m, order); WithoutAt(keys, cap); }
          DropReported(victim);
        }
      }
    }

    method Add(key: string, val: V)
      requires Valid()
      modifies this, repr
      ensures Valid() && fresh(repr - old(repr))
      ensures Held() == Added(old(Held()), cap, key, val)
      ensures evicted == old(evicted) + AddEvicts(old(Held()), cap, key, val)
    {
      if key in m {
        Replace(key, val);
      } else {
        ghost var node := Insert(key, val);
      }
    }

    /** A present key takes the new value and goes to the front. */
    method Replace(key: string, val: V)
      requires Valid() && key in m
      modifies this`head, this`tail, this`order, this`repr, repr
      ensures Valid() && repr == old(repr)
      ensures Held() == Added(old(Held()), cap, key, val) && AddEvicts(old(Held()), cap, key, val) == []
    {
      assert Ok(Held(), cap) by { KeysDistinct(m, order); }
      AddFits(Held(), cap, key, val);
      Overwrite(m[key], val);
    }

    method GetOrAdd(key: string, newVal: V) returns (val: V, existed: bool)
      requires Valid()
      modifies this, repr
      ensures Valid() && fresh(repr - old(repr))
      ensures existed == (key in old(Held()).vals)
      ensures existed ==> Held() == Touched(old(Held()), key) && val == old(Held()).vals[key] && evicted == old(evicted)
      ensures !existed ==>
                && Held() == Added(old(Held()), cap, key, newVal) && val == newVal
                && evicted == old(evicted) + AddEvicts(old(Held()), cap, key, newVal)
    {
      if key in m {
        var e := m[key];
        Promote(e);
        return e.val, true;
      }
      ghost var node := Insert(key, newVal);
      return newVal, false;
    }

    /** The insert-and-evict path shared by Add and GetOrAdd. */
    method Insert(key: string, val: V) returns (ghost node: Entry<V>)
      requires Valid() && key !in m
      modifies this, repr
      ensures Valid() && fresh(node) && repr == old(repr) + {node}
      ensures Held() == Added(old(Held()), cap, key, val)
      ensures evicted == old(evicted) + AddEvicts(old(Held()), cap, key, val)
    {
      assert Ok(Held(), cap) by { KeysDistinct(m, order); }
      AddedIsPush(Held(), cap, key, val);
      node := PushNew(key, val);
      EvictOverflow();
    }

    /** A key that is not held can be taken out of the contents without effect. */
    static lemma {:induction false} DeletedAbsent(c: Contents<V>, key: string)
      requires key !in c.keys && key !in c.vals
      ensures Deleted(c, key) == c
    {
      WithoutAbsent(c.keys, key);
      assert c.vals - {key} == c.vals;
    }

    method Delete(key: string) returns (removed: bool)
      requires Valid()
      modifies this`head, this`tail, this`order, this`m, this`evicted, repr`prev, repr`next
      ensures Valid()
      ensures removed == (key in old(Held()).vals)
      ensures Held() == Deleted(old(Held()), key)
      ensures evicted == old(evicted) + if removed then [Item(key, old(Held()).vals[key])] else []
    {
      if key !in m {
        assert Deleted(Held(), key) == Held() by { KeysDistinct(m, order); DeletedAbsent(Held(), key); }
        return false;
      }
      DropReported(m[key]);
      return true;
    }
  }
}
