/**
 The value-level model of LegacyLruCache: a list of nodes with the most recently
 touched node at the front, and the theory of what such a list remembers about
 the whole history of operations.
 */
module LruModel {
  import opened Options

  datatype Node<K, V> = Node(key: K, value: V)

  // ---------- the list and its operations ----------

  ghost predicate DistinctKeys<K, V>(s: seq<Node<K, V>>) {
    forall i, j :: 0 <= i < j < |s| ==> s[i].key != s[j].key
  }

  /** Index of the node holding `k`, or the length of the list. */
  function Position<K(==), V>(s: seq<Node<K, V>>, k: K): (i: nat)
    ensures i <= |s|
    ensures i < |s| ==> s[i].key == k
    ensures forall j :: 0 <= j < i ==> s[j].key != k
  {
    if s == [] then 0 else if s[0].key == k then 0 else 1 + Position(s[1..], k)
  }

  predicate Resident<K(==), V>(s: seq<Node<K, V>>, k: K) {
    Position(s, k) < |s|
  }

  ghost function KeysOf<K, V>(s: seq<Node<K, V>>): (r: seq<K>)
    ensures |r| == |s| && forall i :: 0 <= i < |s| ==> r[i] == s[i].key
  {
    seq(|s|, i requires 0 <= i < |s| => s[i].key)
  }

  function Lookup<K(==), V>(s: seq<Node<K, V>>, k: K): (v: Option<V>)
    ensures v.None? <==> forall n :: n in s ==> n.key != k
    ensures v.Some? ==> Node(k, v.value) in s
  {
    var i := Position(s, k);
    if i < |s| then Some(s[i].value) else None
  }

  function Without<K(==), V>(s: seq<Node<K, V>>, k: K): seq<Node<K, V>> {
    if s == [] then [] else if s[0].key == k then s[1..] else [s[0]] + Without(s[1..], k)
  }

  /** A hit moves the node to the front, a miss changes nothing. */
  function Touched<K(==), V>(s: seq<Node<K, V>>, k: K): seq<Node<K, V>> {
    match Lookup(s, k)
    case Some(v) => [Node(k, v)] + Without(s, k)
    case None => s
  }

  function Inserted<K(==), V>(capacity: nat, s: seq<Node<K, V>>, k: K, v: V): seq<Node<K, V>> {
    if Resident(s, k) then [Node(k, v)] + Without(s, k)
    else if |s| == capacity && s != [] then [Node(k, v)] + s[..|s| - 1]
    else [Node(k, v)] + s
  }

  /** A write through a pointer to the value of `k`: no node moves. */
  function Assigned<K(==), V>(s: seq<Node<K, V>>, k: K, v: V): (r: seq<Node<K, V>>)
    ensures |r| == |s| && forall i :: 0 <= i < |s| ==> r[i].key == s[i].key
    ensures forall i :: 0 <= i < |s| && s[i].key != k ==> r[i] == s[i]
  {
    if Resident(s, k) then s[Position(s, k) := Node(k, v)] else s
  }

  function Evicted<K(==), V>(capacity: nat, s: seq<Node<K, V>>, k: K): Option<Node<K, V>> {
    if !Resident(s, k) && |s| == capacity && s != [] then Some(s[|s| - 1]) else None
  }

  /** Removing a key takes out one node and keeps all the others in order. */
  lemma {:induction false} WithoutSplits<K, V>(s: seq<Node<K, V>>, k: K)
    ensures var p := Position(s, k); Without(s, k) == if p < |s| then s[..p] + s[p + 1..] else s
  {
    if s != [] && s[0].key != k {
      WithoutSplits(s[1..], k);
      var p := Position(s[1..], k);
      assert p < |s[1..]| ==> s[..p + 1] == [s[0]] + s[1..][..p];
    }
  }

  // ---------- what the operations do to the set of nodes ----------

  ghost function Nodes<K, V>(s: seq<Node<K, V>>): set<Node<K, V>> {
    set n | n in s
  }

  ghost function AsMap<K(!new), V>(s: seq<Node<K, V>>): map<K, V> {
    map n | n in s :: n.key := Lookup(s, n.key).value
  }

  lemma {:induction false} NodeIsLookup<K, V>(s: seq<Node<K, V>>, n: Node<K, V>)
    requires DistinctKeys(s)
    ensures n in s <==> Lookup(s, n.key) == Some(n.value)
  {
    if n in s {
      var i :| 0 <= i < |s| && s[i] == n;
      assert s[Position(s, n.key)].key == n.key;
    }
  }

  lemma {:induction false} AsMapIs<K(!new), V>(s: seq<Node<K, V>>, m: map<K, V>)
    requires DistinctKeys(s)
    requires forall n :: n in s ==> n.key in m && m[n.key] == n.value
    requires forall k :: k in m ==> Node(k, m[k]) in s
    ensures AsMap(s) == m
  {
    forall k | k in m ensures k in AsMap(s) && AsMap(s)[k] == m[k] {
      NodeIsLookup(s, Node(k, m[k]));
      assert Node(k, m[k]).key in AsMap(s);
    }
  }

  lemma {:induction false} AsMapHas<K(!new), V>(s: seq<Node<K, V>>, k: K)
    requires DistinctKeys(s)
    ensures k in AsMap(s) <==> Lookup(s, k).Some?
    ensures k in AsMap(s) ==> Lookup(s, k) == Some(AsMap(s)[k])
    ensures k in AsMap(s) ==> Node(k, AsMap(s)[k]) in s
  {
    if Lookup(s, k).Some? { assert Node(k, Lookup(s, k).value).key in AsMap(s); }
  }

  lemma {:induction false} Cons<K, V>(n: Node<K, V>, s: seq<Node<K, V>>)
    ensures Nodes([n] + s) == {n} + Nodes(s)
    ensures DistinctKeys([n] + s) <==> DistinctKeys(s) && forall m :: m in s ==> m.key != n.key
  {
    var r := [n] + s;
    assert r[0] == n && r[1..] == s;
    assert forall i :: 0 <= i < |s| ==> s[i] == r[i + 1];
    if DistinctKeys(r) {
      forall m | m in s ensures m.key != n.key {
        var i :| 0 <= i < |s| && s[i] == m;
        assert r[0].key != r[i + 1].key;
      }
    }
  }

  lemma {:induction false} NodesWithout<K, V>(s: seq<Node<K, V>>, k: K)
    requires DistinctKeys(s)
    ensures DistinctKeys(Without(s, k))
    ensures Nodes(Without(s, k)) == set n | n in s && n.key != k
    ensures |Without(s, k)| <= |s| && (Resident(s, k) ==> |Without(s, k)| < |s|)
  {
    if s != [] {
      var n, rest := s[0], s[1..];
      assert s == [n] + rest;
      Cons(n, rest);
      NodesWithout(rest, k);
      if n.key != k { ConsWithout(n, rest, Without(rest, k), k); }
    }
  }

  lemma {:induction false} ConsWithout<K, V>(n: Node<K, V>, rest: seq<Node<K, V>>, w: seq<Node<K, V>>, k: K)
    requires DistinctKeys(w) && Nodes(w) == (set m | m in rest && m.key != k) && n.key != k
    requires forall m :: m in rest ==> m.key != n.key
    ensures DistinctKeys([n] + w)
    ensures Nodes([n] + w) == set m | m in [n] + rest && m.key != k
  {
    assert forall m :: m in w <==> m in Nodes(w);
    Cons(n, w);
  }

  lemma {:induction false} NodesTouched<K, V>(s: seq<Node<K, V>>, k: K)
    requires DistinctKeys(s)
    ensures DistinctKeys(Touched(s, k)) && |Touched(s, k)| <= |s|
    ensures Nodes(Touched(s, k)) == Nodes(s)
  {
    NodesWithout(s, k);
    if Resident(s, k) {
      var n := Node(k, Lookup(s, k).value);
      forall m | m in s && m.key == k ensures m == n { NodeIsLookup(s, m); }
      var r := Touched(s, k);
      assert r == [n] + Without(s, k);
      assert forall i :: 0 < i < |r| ==> r[i] in Nodes(Without(s, k));
      forall m | m in s ensures m in r { assert m == n || m in Nodes(Without(s, k)); }
    }
  }

  lemma {:induction false} NodesInserted<K, V>(capacity: nat, s: seq<Node<K, V>>, k: K, v: V)
    requires DistinctKeys(s) && !Resident(s, k) && |s| <= capacity && 0 < capacity
    ensures var out := Evicted(capacity, s, k); var r := Inserted(capacity, s, k, v);
            && DistinctKeys(r) && |r| <= capacity
            && (out.Some? ==> out.value in s)
            && Nodes(r) == Nodes(s) + {Node(k, v)} - (if out.Some? then {out.value} else {})
  {
    var n := |s| - 1;
    if |s| == capacity {
      AllButTail(s);
      Cons(Node(k, v), s[..n]);
    } else {
      Cons(Node(k, v), s);
    }
  }

  lemma {:induction false} AllButTail<K, V>(s: seq<Node<K, V>>)
    requires DistinctKeys(s) && s != []
    ensures Nodes(s[..|s| - 1]) == Nodes(s) - {s[|s| - 1]}
    ensures DistinctKeys(s[..|s| - 1])
  {
    var n := |s| - 1;
    assert s == s[..n] + [s[n]];
    forall i | 0 <= i < n ensures s[i] != s[n] { assert s[i].key != s[n].key; }
  }

  // ---------- histories ----------

  datatype Op<K, V> = Find(key: K) | Put(key: K, value: V) | Remove(key: K) | Clear

  /** What an operation does to recency: a hit or a Put touches, Remove and Clear forget. */
  datatype Event<K> = Touch(key: K) | Gone(key: K) | AllGone

  datatype History<K, V> = History(nodes: seq<Node<K, V>>, log: seq<Event<K>>)

  function Step<K(==), V>(capacity: nat, h: History<K, V>, op: Op<K, V>): History<K, V> {
    match op
    case Find(k) =>
      History(Touched(h.nodes, k), if Resident(h.nodes, k) then h.log + [Touch(k)] else h.log)
    case Put(k, v) => History(Inserted(capacity, h.nodes, k, v), h.log + [Touch(k)])
    case Remove(k) => History(Without(h.nodes, k), h.log + [Gone(k)])
    case Clear => History([], h.log + [AllGone])
  }

  function Run<K(==), V>(capacity: nat, ops: seq<Op<K, V>>): History<K, V> {
    if ops == [] then History([], [])
    else Step(capacity, Run(capacity, ops[..|ops| - 1]), ops[|ops| - 1])
  }

  /** For each key touched and not forgotten since, the time of its last touch. */
  ghost function LastTouch<K>(log: seq<Event<K>>): (m: map<K, nat>)
    ensures forall k :: k in m ==> m[k] < |log| && log[m[k]] == Touch(k)
  {
    if log == [] then map[]
    else Recorded(LastTouch(log[..|log| - 1]), log[|log| - 1], |log| - 1)
  }

  ghost function Recorded<K>(last: map<K, nat>, e: Event<K>, now: nat): map<K, nat> {
    match e
    case Touch(k) => last[k := now]
    case Gone(k) => last - {k}
    case AllGone => map[]
  }

  /** The distinct keys touched after time `t`. */
  ghost function TouchedAfter<K>(log: seq<Event<K>>, t: nat): set<K> {
    set i | t < i < |log| && log[i].Touch? :: log[i].key
  }

  /** All keys of a log, most recently touched first: the list an unbounded cache would keep. */
  ghost function Recent<K>(log: seq<Event<K>>): seq<K> {
    if log == [] then []
    else
      var before := Recent(log[..|log| - 1]);
      match log[|log| - 1]
      case Touch(k) => [k] + Minus(before, k)
      case Gone(k) => Minus(before, k)
      case AllGone => []
  }

  ghost function Minus<K>(keys: seq<K>, k: K): seq<K> {
    if keys == [] then [] else if keys[0] == k then keys[1..] else [keys[0]] + Minus(keys[1..], k)
  }

  /** Each key was last touched before the keys in front of it. */
  ghost predicate Descending<K>(keys: seq<K>, last: map<K, nat>) {
    keys != [] ==>
      && keys[0] in last
      && (forall x :: x in keys[1..] ==> x in last && last[x] < last[keys[0]])
      && Descending(keys[1..], last)
  }

  /**
   What the node list knows about the past: it holds the most recent keys, at most
   `capacity` of them, and a touched key that is neither resident nor forgotten
   was pushed out by `capacity` other keys.
   */
  ghost predicate Remembers<K(!new), V>(capacity: nat, h: History<K, V>) {
    && |h.nodes| <= capacity
    && KeysOf(h.nodes) <= Recent(h.log)
    && PushedOut(capacity, KeysOf(h.nodes), LastTouch(h.log), h.log)
  }

  ghost predicate PushedOut<K(!new)>(capacity: nat, keys: seq<K>, last: map<K, nat>, log: seq<Event<K>>) {
    forall k :: k in last && k !in keys ==> capacity <= |TouchedAfter(log, last[k])|
  }

  // ---------- recency ----------

  lemma {:induction false} MinusKeys<K>(keys: seq<K>, last: map<K, nat>, last': map<K, nat>, k: K)
    requires Descending(keys, last)
    requires forall x :: x in last && x != k ==> x in last' && last'[x] == last[x]
    ensures Descending(Minus(keys, k), last')
    ensures forall x :: x in Minus(keys, k) <==> x in keys && x != k
  {
    if keys != [] {
      MinusKeys(keys[1..], last, last', k);
      if keys[0] == k { SameStamps(keys[1..], last, last', k); }
    }
  }

  lemma {:induction false} SameStamps<K>(keys: seq<K>, last: map<K, nat>, last': map<K, nat>, k: K)
    requires Descending(keys, last) && k !in keys
    requires forall x :: x in last && x != k ==> x in last' && last'[x] == last[x]
    ensures Descending(keys, last')
  {
    if keys != [] { SameStamps(keys[1..], last, last', k); }
  }

  /** The recency list holds exactly the keys with a last touch, latest first. */
  lemma {:induction false} RecentIsByLastTouch<K>(log: seq<Event<K>>)
    ensures Descending(Recent(log), LastTouch(log))
    ensures forall k :: k in Recent(log) <==> k in LastTouch(log)
  {
    if log != [] {
      var before, e := log[..|log| - 1], log[|log| - 1];
      RecentIsByLastTouch(before);
      if !e.AllGone? {
        MinusKeys(Recent(before), LastTouch(before), LastTouch(log), e.key);
        assert e.Touch? ==> Recent(log)[1..] == Minus(Recent(before), e.key);
      }
    }
  }

  lemma {:induction false} DescendingPair<K>(keys: seq<K>, last: map<K, nat>, i: nat, j: nat)
    requires Descending(keys, last) && i < j < |keys|
    ensures keys[i] in last && keys[j] in last && last[keys[j]] < last[keys[i]]
  {
    if i == 0 { assert keys[j] in keys[1..]; } else { DescendingPair(keys[1..], last, i - 1, j - 1); }
    if i == 0 { assert keys[1..][j - 1] == keys[j]; }
  }

  lemma {:induction false} MinusPrefix<K>(a: seq<K>, b: seq<K>, k: K)
    requires a <= b
    ensures Minus(a, k) <= Minus(b, k)
    ensures k !in a ==> a <= Minus(b, k)
  {
    if a != [] {
      MinusPrefix(a[1..], b[1..], k);
      assert a == [a[0]] + a[1..] && b == [b[0]] + b[1..];
    }
  }

  lemma {:induction false} KeysOfWithout<K, V>(s: seq<Node<K, V>>, k: K)
    ensures KeysOf(Without(s, k)) == Minus(KeysOf(s), k)
    ensures Resident(s, k) <==> k in KeysOf(s)
  {
    if s != [] {
      KeysOfWithout(s[1..], k);
      assert KeysOf(s)[1..] == KeysOf(s[1..]);
    }
  }

  // ---------- who is pushed out ----------

  lemma {:induction false} TouchedGrows<K>(log: seq<Event<K>>, e: Event<K>, t: nat)
    requires t < |log|
    ensures TouchedAfter(log + [e], t) == TouchedAfter(log, t) + (if e.Touch? then {e.key} else {})
  {
    var grown := log + [e];
    assert grown[|log|] == e;
    forall k | k in TouchedAfter(log, t) ensures k in TouchedAfter(grown, t) {
      var i :| t < i < |log| && log[i].Touch? && log[i].key == k;
      assert grown[i] == log[i];
    }
  }

  lemma {:induction false} KeysCount<K>(keys: seq<K>, last: map<K, nat>, n: nat)
    requires Descending(keys, last) && n <= |keys|
    ensures |set i | 0 <= i < n :: keys[i]| == n
  {
    if n > 0 {
      KeysCount(keys, last, n - 1);
      forall i | 0 <= i < n - 1 ensures keys[i] != keys[n - 1] { DescendingPair(keys, last, i, n - 1); }
      assert (set i | 0 <= i < n :: keys[i]) == (set i | 0 <= i < n - 1 :: keys[i]) + {keys[n - 1]};
    }
  }

  lemma Subset<K>(a: set<K>, b: set<K>)
    requires a <= b
    ensures |a| <= |b|
  {
    assert b == a + (b - a);
  }

  /** The keys in front of position `n` were touched later; so is a key touched now. */
  lemma {:induction false} EvictionWitness<K>(recent: seq<K>, log: seq<Event<K>>, n: nat, k: K)
    requires Descending(recent, LastTouch(log)) && n < |recent| && k !in recent[..n]
    ensures recent[n] in LastTouch(log)
    ensures n < |TouchedAfter(log + [Touch(k)], LastTouch(log)[recent[n]])|
  {
    var last := LastTouch(log);
    if n > 0 { DescendingPair(recent, last, 0, n); }
    var t := last[recent[n]];
    var front := set i | 0 <= i < n :: recent[i];
    forall i | 0 <= i < n ensures recent[i] in TouchedAfter(log, t) && recent[i] != k {
      DescendingPair(recent, last, i, n);
      assert log[last[recent[i]]] == Touch(recent[i]);
      assert recent[..n][i] == recent[i];
    }
    KeysCount(recent, last, n);
    TouchedGrows(log, Touch(k), t);
    Subset(front + {k}, TouchedAfter(log + [Touch(k)], t));
  }

  /** Keys that stay outside keep their excuse when the log grows. */
  lemma {:induction false} PushedOutGrows<K(!new)>(
      capacity: nat, keys: seq<K>, log: seq<Event<K>>, keys': seq<K>, e: Event<K>)
    requires PushedOut(capacity, keys, LastTouch(log), log) && !e.AllGone?
    requires forall k :: k in LastTouch(log) && k !in keys' && k != e.key ==>
               k !in keys || capacity <= |TouchedAfter(log + [e], LastTouch(log)[k])|
    requires e.Touch? ==> e.key in keys'
    ensures PushedOut(capacity, keys', LastTouch(log + [e]), log + [e])
  {
    var last, last' := LastTouch(log), LastTouch(log + [e]);
    assert (log + [e])[..|log|] == log;
    forall k | k in last' && k !in keys' ensures capacity <= |TouchedAfter(log + [e], last'[k])| {
      TouchedGrows(log, e, last[k]);
      Subset(TouchedAfter(log, last[k]), TouchedAfter(log + [e], last[k]));
    }
  }

  // ---------- every step remembers ----------

  /** The keys after a Put: at the front the key itself, then what was there, less at most the tail. */
  lemma {:induction false} KeysOfInserted<K, V>(capacity: nat, s: seq<Node<K, V>>, k: K, v: V)
    requires |s| <= capacity && 0 < capacity
    ensures var keys := KeysOf(s);
            KeysOf(Inserted(capacity, s, k, v)) ==
              [k] + if k in keys then Minus(keys, k) else if |s| == capacity then keys[..capacity - 1] else keys
    ensures |Inserted(capacity, s, k, v)| <= capacity
  {
    KeysOfWithout(s, k);
    WithoutLength(s, k);
  }

  lemma {:induction false} TouchRemembers<K(!new), V>(capacity: nat, h: History<K, V>, k: K, v: V)
    requires Remembers(capacity, h) && 0 < capacity
    ensures Remembers(capacity, History(Inserted(capacity, h.nodes, k, v), h.log + [Touch(k)]))
  {
    KeysOfInserted(capacity, h.nodes, k, v);
    var keys' := KeysOf(Inserted(capacity, h.nodes, k, v));
    TouchKeepsPrefix(capacity, KeysOf(h.nodes), h.log, k, keys');
    TouchKeepsPushedOut(capacity, KeysOf(h.nodes), h.log, k, keys');
  }

  lemma {:induction false} TouchKeepsPrefix<K>(capacity: nat, keys: seq<K>, log: seq<Event<K>>, k: K, keys': seq<K>)
    requires keys <= Recent(log) && |keys| <= capacity && 0 < capacity
    requires keys' ==
               [k] + if k in keys then Minus(keys, k) else if |keys| == capacity then keys[..capacity - 1] else keys
    ensures keys' <= Recent(log + [Touch(k)])
  {
    assert (log + [Touch(k)])[..|log|] == log;
    MinusPrefix(keys, Recent(log), k);
  }

  lemma {:induction false} TouchKeepsPushedOut<K(!new)>(
      capacity: nat, keys: seq<K>, log: seq<Event<K>>, k: K, keys': seq<K>)
    requires keys <= Recent(log) && |keys| <= capacity && 0 < capacity
    requires PushedOut(capacity, keys, LastTouch(log), log)
    requires keys' ==
               [k] + if k in keys then Minus(keys, k) else if |keys| == capacity then keys[..capacity - 1] else keys
    ensures PushedOut(capacity, keys', LastTouch(log + [Touch(k)]), log + [Touch(k)])
  {
    MinusKeysOnly(keys, k);
    if k !in keys && |keys| == capacity {
      assert keys == keys[..capacity - 1] + [keys[capacity - 1]];
      RecentIsByLastTouch(log);
      assert Recent(log)[..capacity - 1] == keys[..capacity - 1];
      EvictionWitness(Recent(log), log, capacity - 1, k);
    }
    PushedOutGrows(capacity, keys, log, keys', Touch(k));
  }

  lemma {:induction false} MinusKeysOnly<K>(keys: seq<K>, k: K)
    ensures forall x :: x in keys && x != k ==> x in Minus(keys, k)
  {
    if keys != [] { MinusKeysOnly(keys[1..], k); }
  }

  lemma {:induction false} WithoutLength<K, V>(s: seq<Node<K, V>>, k: K)
    ensures |Without(s, k)| == if Resident(s, k) then |s| - 1 else |s|
  {
    if s != [] { WithoutLength(s[1..], k); }
  }

  lemma {:induction false} StepRemembers<K(!new), V>(capacity: nat, h: History<K, V>, op: Op<K, V>)
    requires Remembers(capacity, h) && 0 < capacity
    ensures Remembers(capacity, Step(capacity, h, op))
  {
    match op
    case Find(k) =>
      if Resident(h.nodes, k) { TouchRemembers(capacity, h, k, Lookup(h.nodes, k).value); }
    case Put(k, v) => TouchRemembers(capacity, h, k, v);
    case Remove(k) =>
      var keys := KeysOf(h.nodes);
      KeysOfWithout(h.nodes, k);
      WithoutLength(h.nodes, k);
      MinusPrefix(keys, Recent(h.log), k);
      MinusKeysOnly(keys, k);
      assert (h.log + [Gone(k)])[..|h.log|] == h.log;
      PushedOutGrows(capacity, keys, h.log, Minus(keys, k), Gone(k));
    case Clear =>
  }

  /** Every history leaves the most recently touched keys, never more than the capacity. */
  lemma {:induction false} RunRemembers<K(!new), V>(capacity: nat, ops: seq<Op<K, V>>)
    requires 0 < capacity
    ensures Remembers(capacity, Run(capacity, ops))
  {
    if ops != [] {
      RunRemembers(capacity, ops[..|ops| - 1]);
      StepRemembers(capacity, Run(capacity, ops[..|ops| - 1]), ops[|ops| - 1]);
    }
  }

  // ---------- what it means for a user of the cache ----------

  /** After any history, a full cache makes room by giving up the resident whose last touch is oldest. */
  lemma {:induction false} EvictsOldest<K(!new), V>(capacity: nat, ops: seq<Op<K, V>>, k: K, n: Node<K, V>)
    requires 0 < capacity
    requires var s := Run(capacity, ops).nodes; |s| == capacity && !Resident(s, k) && n in s
    ensures var h := Run(capacity, ops); var out := Evicted(capacity, h.nodes, k); var last := LastTouch(h.log);
            && out.Some? && out.value in h.nodes && n.key in last && out.value.key in last
            && (n == out.value || last[out.value.key] < last[n.key])
  {
    RunRemembers(capacity, ops);
    OldestIsLast(Run(capacity, ops).nodes, Run(capacity, ops).log, n);
  }

  lemma {:induction false} OldestIsLast<K, V>(s: seq<Node<K, V>>, log: seq<Event<K>>, n: Node<K, V>)
    requires KeysOf(s) <= Recent(log) && n in s
    ensures var last := LastTouch(log); var tail := s[|s| - 1];
            && n.key in last && tail.key in last
            && (n == tail || last[tail.key] < last[n.key])
  {
    var i :| 0 <= i < |s| && s[i] == n;
    OldestAt(s, KeysOf(s), log, i);
  }

  lemma {:induction false} OldestAt<K, V>(s: seq<Node<K, V>>, keys: seq<K>, log: seq<Event<K>>, i: nat)
    requires keys <= Recent(log) && i < |s| == |keys|
    requires keys[i] == s[i].key && keys[|s| - 1] == s[|s| - 1].key
    ensures var last := LastTouch(log); var tail := s[|s| - 1];
            && s[i].key in last && tail.key in last
            && (i == |s| - 1 || last[tail.key] < last[s[i].key])
  {
    LastKeyIsOldest(keys, log, i);
  }

  lemma {:induction false} LastKeyIsOldest<K>(keys: seq<K>, log: seq<Event<K>>, i: nat)
    requires keys <= Recent(log) && i < |keys|
    ensures var last := LastTouch(log); var n := |keys| - 1;
            keys[i] in last && keys[n] in last && (i == n || last[keys[n]] < last[keys[i]])
  {
    RecentIsByLastTouch(log);
    LastOfPrefix(keys, Recent(log), LastTouch(log));
  }

  lemma {:induction false} LastOfPrefix<K>(keys: seq<K>, all: seq<K>, last: map<K, nat>)
    requires keys <= all && Descending(all, last) && keys != []
    ensures forall i :: 0 <= i < |keys| ==> keys[i] in last
    ensures forall i :: 0 <= i < |keys| - 1 ==> last[keys[|keys| - 1]] < last[keys[i]]
  {
    var n := |keys| - 1;
    forall i | 0 <= i < n ensures keys[i] in last && keys[n] in last && last[keys[n]] < last[keys[i]] {
      DescendingPair(all, last, i, n);
      assert all[i] == keys[i] && all[n] == keys[n];
    }
    if n == 0 { assert all[0] == keys[0]; }
  }

  /** After its last touch a key is not touched again. */
  lemma {:induction false} QuietAfterLastTouch<K>(log: seq<Event<K>>, k: K, i: int)
    requires k in LastTouch(log) && LastTouch(log)[k] < i < |log|
    ensures log[i] != Touch(k)
  {
    if i < |log| - 1 { QuietAfterLastTouch(log[..|log| - 1], k, i); }
  }

  /** A touch that nothing forgets afterwards leaves a last touch at least as late. */
  lemma {:induction false} TouchIsRemembered<K>(log: seq<Event<K>>, i: int)
    requires 0 <= i < |log| && forall j :: i <= j < |log| ==> log[j].Touch?
    ensures log[i].key in LastTouch(log) && i <= LastTouch(log)[log[i].key]
  {
    if i < |log| - 1 { TouchIsRemembered(log[..|log| - 1], i); }
  }

  /** A key touched later stands further in front. */
  lemma {:induction false} StandsInFront<K>(keys: seq<K>, last: map<K, nat>, p: nat, x: K)
    requires Descending(keys, last) && p < |keys| && keys[p] in last
    requires x in keys && x in last && last[keys[p]] < last[x]
    ensures x in keys[..p]
  {
    var j :| 0 <= j < |keys| && keys[j] == x;
    if p < j { DescendingPair(keys, last, p, j); }
    assert keys[..p][j] == x;
  }

  /** In front of position `p` stand all the keys touched later, if nothing was forgotten since. */
  lemma {:induction false} TouchedLaterStandInFront<K>(log: seq<Event<K>>, p: nat)
    requires p < |Recent(log)|
    ensures Recent(log)[p] in LastTouch(log)
    ensures var t := LastTouch(log)[Recent(log)[p]];
            (forall i :: t < i < |log| ==> log[i].Touch?) ==> |TouchedAfter(log, t)| <= p
  {
    RecentIsByLastTouch(log);
    assert Recent(log)[p] in Recent(log);
    FewTouchedLater(Recent(log), LastTouch(log), log, p);
  }

  lemma {:induction false} FewTouchedLater<K>(keys: seq<K>, last: map<K, nat>, log: seq<Event<K>>, p: nat)
    requires last == LastTouch(log) && Descending(keys, last) && p < |keys| && keys[p] in last
    requires forall k :: k in last ==> k in keys
    ensures (forall i :: last[keys[p]] < i < |log| ==> log[i].Touch?) ==> |TouchedAfter(log, last[keys[p]])| <= p
  {
    var t := last[keys[p]];
    if forall i :: t < i < |log| ==> log[i].Touch? {
      var front := set i | 0 <= i < p :: keys[i];
      forall x | x in TouchedAfter(log, t) ensures x in front {
        var i :| t < i < |log| && log[i].Touch? && log[i].key == x;
        TouchIsRemembered(log, i);
        StandsInFront(keys, last, p, x);
        var j :| 0 <= j < p && keys[..p][j] == x;
        assert keys[j] == x;
      }
      KeysCount(keys, last, p);
      Subset(TouchedAfter(log, t), front);
    }
  }

  /**
   After any history, a touched key that has not been forgotten is still resident
   unless at least `capacity` distinct other keys have been touched since; and when
   nothing has been forgotten since, that is the only way to stay.
   */
  lemma {:induction false} StaysResident<K(!new), V>(capacity: nat, ops: seq<Op<K, V>>, k: K)
    requires 0 < capacity
    requires k in LastTouch(Run(capacity, ops).log)
    ensures var h := Run(capacity, ops); var t := LastTouch(h.log)[k]; var others := TouchedAfter(h.log, t);
            && k !in others
            && (|others| < capacity ==> Resident(h.nodes, k))
            && ((forall i :: t < i < |h.log| ==> h.log[i].Touch?) ==>
                  (Resident(h.nodes, k) <==> |others| < capacity))
  {
    RunRemembers(capacity, ops);
    var h := Run(capacity, ops);
    var keys, t := KeysOf(h.nodes), LastTouch(h.log)[k];
    KeysOfWithout(h.nodes, k);
    forall i | t < i < |h.log| ensures h.log[i] != Touch(k) { QuietAfterLastTouch(h.log, k, i); }
    if k in keys {
      var p :| 0 <= p < |keys| && keys[p] == k;
      assert Recent(h.log)[p] == k;
      TouchedLaterStandInFront(h.log, p);
    }
  }

  /** The value that a key was put with last. */
  function LastPut<K(==), V>(ops: seq<Op<K, V>>, k: K): Option<V> {
    if ops == [] then None
    else
      var op := ops[|ops| - 1];
      if op.Put? && op.key == k then Some(op.value) else LastPut(ops[..|ops| - 1], k)
  }

  /** After any history a resident key has the value it was put with last. */
  lemma {:induction false} HoldsLastPut<K(!new), V>(capacity: nat, ops: seq<Op<K, V>>, n: Node<K, V>)
    requires 0 < capacity && n in Run(capacity, ops).nodes
    ensures LastPut(ops, n.key) == Some(n.value)
  {
    var before, op := ops[..|ops| - 1], ops[|ops| - 1];
    var s := Run(capacity, before).nodes;
    RunIsDistinct(capacity, before);
    if op.Put? && op.key == n.key {
      FrontIsPut(capacity, s, op.key, op.value, n);
    } else {
      StaysFrom(capacity, Run(capacity, before), op, n);
      HoldsLastPut(capacity, before, n);
    }
  }

  lemma {:induction false} RunIsDistinct<K(!new), V>(capacity: nat, ops: seq<Op<K, V>>)
    requires 0 < capacity
    ensures DistinctKeys(Run(capacity, ops).nodes) && |Run(capacity, ops).nodes| <= capacity
  {
    if ops != [] {
      var before, op := ops[..|ops| - 1], ops[|ops| - 1];
      var s := Run(capacity, before).nodes;
      RunIsDistinct(capacity, before);
      match op
      case Find(k) => NodesTouched(s, k);
      case Put(k, v) => PutIsDistinct(capacity, s, k, v);
      case Remove(k) => NodesWithout(s, k);
      case Clear =>
    }
  }

  lemma {:induction false} PutIsDistinct<K, V>(capacity: nat, s: seq<Node<K, V>>, k: K, v: V)
    requires DistinctKeys(s) && |s| <= capacity && 0 < capacity
    ensures DistinctKeys(Inserted(capacity, s, k, v)) && |Inserted(capacity, s, k, v)| <= capacity
  {
    if Resident(s, k) {
      NodesWithout(s, k);
      forall m | m in Without(s, k) ensures m.key != k { assert m in Nodes(Without(s, k)); }
      Cons(Node(k, v), Without(s, k));
    } else {
      NodesInserted(capacity, s, k, v);
    }
  }

  lemma {:induction false} FrontIsPut<K, V>(capacity: nat, s: seq<Node<K, V>>, k: K, v: V, n: Node<K, V>)
    requires DistinctKeys(s) && |s| <= capacity && 0 < capacity && n in Inserted(capacity, s, k, v) && n.key == k
    ensures n.value == v
  {
    PutIsDistinct(capacity, s, k, v);
    var r := Inserted(capacity, s, k, v);
    var i :| 0 <= i < |r| && r[i] == n;
    assert r[0] == Node(k, v);
  }

  /** A node that is there after an operation that did not put its key was there before. */
  lemma {:induction false} StaysFrom<K(!new), V>(capacity: nat, h: History<K, V>, op: Op<K, V>, n: Node<K, V>)
    requires DistinctKeys(h.nodes) && |h.nodes| <= capacity && 0 < capacity
    requires n in Step(capacity, h, op).nodes && !(op.Put? && op.key == n.key)
    ensures n in h.nodes
  {
    var s := h.nodes;
    match op
    case Find(k) =>
      NodesTouched(s, k);
      assert n in Nodes(Touched(s, k));
    case Put(k, v) =>
      NodesWithout(s, k);
      assert n in Without(s, k) ==> n in Nodes(Without(s, k));
    case Remove(k) =>
      NodesWithout(s, k);
      assert n in Nodes(Without(s, k));
    case Clear =>
  }
}
