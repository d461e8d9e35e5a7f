/**
 The least-recently-used map the answer cache is built on: a bounded map and its
 keys, most recently used first.
 */
module Lru {

  datatype Lru<!K, V> = Lru(capacity: nat, items: map<K, V>, recency: seq<K>)
  {
    ghost predicate WellFormed() {
      && capacity > 0
      && |items.Keys| <= capacity
      && Lists(recency, items.Keys)
    }
  }

  /** `s` without `k`. */
  function Drop<K(==)>(s: seq<K>, k: K): seq<K> {
    if s == [] then [] else (if s[0] == k then [] else [s[0]]) + Drop(s[1..], k)
  }

  /** `s` lists exactly the keys of `keys`, each once. */
  ghost predicate Lists<K>(s: seq<K>, keys: set<K>) {
    multiset(s) == multiset(keys)
  }

  lemma {:induction false} DropContents<K>(s: seq<K>, k: K)
    ensures multiset(Drop(s, k)) == multiset(s)[k := 0]
  {
    if s != [] {
      DropContents(s[1..], k);
      assert s == [s[0]] + s[1..];
    }
  }

  /** Taking a key out of the list. */
  lemma ListsDrop<K>(s: seq<K>, keys: set<K>, k: K)
    requires Lists(s, keys)
    ensures Lists(Drop(s, k), keys - {k})
  {
    DropContents(s, k);
    assert multiset(keys - {k}) == multiset(keys)[k := 0];
  }

  /** Putting a key at the front of a list it is not in. */
  lemma ListsPush<K>(s: seq<K>, keys: set<K>, k: K)
    requires Lists(s, keys - {k})
    ensures Lists([k] + s, keys + {k})
  {
    assert multiset(keys + {k}) == multiset(keys - {k}) + multiset{k};
  }

  /** Taking the last key off the list. */
  lemma ListsPop<K>(s: seq<K>, keys: set<K>)
    requires Lists(s, keys) && s != []
    ensures var n := |s| - 1;
      s[n] in keys && Lists(s[..n], keys - {s[n]})
  {
    var n := |s| - 1;
    assert s == s[..n] + [s[n]];
    assert s[n] in multiset(s);
    assert multiset(keys - {s[n]}) == multiset(keys) - multiset{s[n]};
  }

  function Empty<K, V>(capacity: nat): (l: Lru<K, V>)
    requires capacity > 0
    ensures l.WellFormed() && l.capacity == capacity && l.items == map[]
  {
    Lru(capacity, map[], [])
  }

  /** The key that makes room when `k` is added; none if `k` is there already or there is room. */
  function Evicted<K(==), V>(l: Lru<K, V>, k: K): set<K> {
    if k in l.items || |l.items.Keys| < l.capacity || l.recency == [] then {}
    else {l.recency[|l.recency| - 1]}
  }

  /** Looking a key up makes it the most recent one. */
  function Touch<K(==), V>(l: Lru<K, V>, k: K): (r: Lru<K, V>)
    requires l.WellFormed() && k in l.items
    ensures r.WellFormed() && r.items == l.items && r.capacity == l.capacity
  {
    ListsDrop(l.recency, l.items.Keys, k);
    ListsPush(Drop(l.recency, k), l.items.Keys, k);
    assert l.items.Keys + {k} == l.items.Keys;
    l.(recency := [k] + Drop(l.recency, k))
  }

  /** Adding or replacing a key makes it the most recent one and keeps the bound. */
  function Add<K(==), V>(l: Lru<K, V>, k: K, v: V): (r: Lru<K, V>)
    requires l.WellFormed()
    ensures r.WellFormed() && r.capacity == l.capacity
    ensures r.items == l.items[k := v] - Evicted(l, k)
  {
    if k in l.items then
      Replaced(l, k, v);
      Touch(l, k).(items := l.items[k := v])
    else if |l.items.Keys| < l.capacity then
      Inserted(l, k, v);
      l.(items := l.items[k := v], recency := [k] + l.recency)
    else
      Swapped(l, k, v);
      var n := |l.recency| - 1;
      l.(items := l.items[k := v] - {l.recency[n]}, recency := [k] + l.recency[..n])
  }

  lemma Replaced<K, V>(l: Lru<K, V>, k: K, v: V)
    requires l.WellFormed() && k in l.items
    ensures Touch(l, k).(items := l.items[k := v]).WellFormed()
  {
    assert l.items[k := v].Keys == l.items.Keys;
  }

  lemma Inserted<K, V>(l: Lru<K, V>, k: K, v: V)
    requires l.WellFormed() && k !in l.items && |l.items.Keys| < l.capacity
    ensures l.(items := l.items[k := v], recency := [k] + l.recency).WellFormed()
  {
    assert l.items[k := v].Keys == l.items.Keys + {k} && l.items.Keys - {k} == l.items.Keys;
    ListsPush(l.recency, l.items.Keys, k);
  }

  lemma Swapped<K, V>(l: Lru<K, V>, k: K, v: V)
    requires l.WellFormed() && k !in l.items && |l.items.Keys| == l.capacity
    ensures l.recency != []
    ensures var n := |l.recency| - 1;
      l.(items := l.items[k := v] - {l.recency[n]}, recency := [k] + l.recency[..n]).WellFormed()
  {
    AddWhenFull(l.recency, l.items.Keys, k);
    var oldest := l.recency[|l.recency| - 1];
    assert (l.items[k := v] - {oldest}).Keys == (l.items.Keys + {k}) - {oldest};
  }

  /** A new key in, the oldest out: the list and the size still fit. */
  lemma AddWhenFull<K>(s: seq<K>, keys: set<K>, k: K)
    requires Lists(s, keys) && k !in keys && |keys| > 0
    ensures s != []
    ensures var n := |s| - 1;
      var keys' := (keys + {k}) - {s[n]};
      Lists([k] + s[..n], keys') && |keys'| == |keys|
  {
    assert |multiset(s)| == |multiset(keys)|;
    var n := |s| - 1;
    ListsPop(s, keys);
    var rest := keys - {s[n]};
    assert rest - {k} == rest && rest + {k} == (keys + {k}) - {s[n]};
    ListsPush(s[..n], rest, k);
  }

  // ---------------------------------------------------------------------
  // Least recently used
  // ---------------------------------------------------------------------

  /** One use of the map: a lookup, or an addition. */
  datatype Use<K, V> = Got(key: K) | Added(key: K, value: V)

  /** A lookup of an absent key changes nothing. */
  function Used<K(==), V>(l: Lru<K, V>, use: Use<K, V>): (r: Lru<K, V>)
    requires l.WellFormed()
    ensures r.WellFormed() && r.capacity == l.capacity
  {
    match use
    case Got(k) => if k in l.items then Touch(l, k) else l
    case Added(k, v) => Add(l, k, v)
  }

  function After<K(==), V>(capacity: nat, uses: seq<Use<K, V>>): (l: Lru<K, V>)
    requires capacity > 0
    ensures l.WellFormed() && l.capacity == capacity
  {
    if uses == [] then Empty(capacity) else Used(After(capacity, uses[..|uses| - 1]), uses[|uses| - 1])
  }

  /** When `k` was last used; -1 if never. */
  function LastUse<K(==), V>(uses: seq<Use<K, V>>, k: K): int {
    if uses == [] then -1
    else if uses[|uses| - 1].key == k then |uses| - 1
    else LastUse(uses[..|uses| - 1], k)
  }

  /** Each key of the list was used more recently than those after it. */
  ghost predicate ByRecency<K, V>(s: seq<K>, uses: seq<Use<K, V>>) {
    forall i, j :: 0 <= i < j < |s| ==> LastUse(uses, s[i]) > LastUse(uses, s[j])
  }

  lemma {:induction false} LastUseBound<K, V>(uses: seq<Use<K, V>>, k: K)
    ensures -1 <= LastUse(uses, k) < |uses|
    ensures LastUse(uses, k) >= 0 ==> uses[LastUse(uses, k)].key == k
    ensures forall i :: LastUse(uses, k) < i < |uses| ==> uses[i].key != k
  {
    if uses != [] {
      LastUseBound(uses[..|uses| - 1], k);
    }
  }

  /** `Drop` leaves a part of the list, in its order. */
  lemma {:induction false} DropByRecency<K, V>(s: seq<K>, k: K, uses: seq<Use<K, V>>)
    requires ByRecency(s, uses)
    ensures ByRecency(Drop(s, k), uses)
    ensures k !in Drop(s, k) && forall x :: x in Drop(s, k) ==> x in s
  {
    if s != [] {
      DropByRecency(s[1..], k, uses);
    }
  }

  /** Using a key puts it before all others. */
  lemma UsedFirst<K, V>(s: seq<K>, uses: seq<Use<K, V>>, use: Use<K, V>)
    requires ByRecency(s, uses) && use.key !in s
    ensures ByRecency([use.key] + s, uses + [use])
  {
    var more, t := uses + [use], [use.key] + s;
    assert more[..|uses|] == uses;
    forall i, j | 0 <= i < j < |t| ensures LastUse(more, t[i]) > LastUse(more, t[j]) {
      LastUseBound(uses, t[j]);
      assert t[j] == s[j - 1] && (i > 0 ==> t[i] == s[i - 1]);
    }
  }

  lemma UnusedKeeps<K, V>(s: seq<K>, uses: seq<Use<K, V>>, use: Use<K, V>)
    requires ByRecency(s, uses) && use.key !in s
    ensures ByRecency(s, uses + [use])
  {
    assert (uses + [use])[..|uses|] == uses;
  }

  lemma ListedOnce<K, V>(l: Lru<K, V>, k: K)
    requires l.WellFormed()
    ensures k in l.recency <==> k in l.items
  {
    assert k in multiset(l.recency) <==> k in multiset(l.items.Keys);
  }

  lemma UsedByRecency<K, V>(l: Lru<K, V>, uses: seq<Use<K, V>>, use: Use<K, V>)
    requires l.WellFormed() && ByRecency(l.recency, uses)
    ensures ByRecency(Used(l, use).recency, uses + [use])
  {
    ListedOnce(l, use.key);
    if use.key in l.items {
      DropByRecency(l.recency, use.key, uses);
      UsedFirst(Drop(l.recency, use.key), uses, use);
    } else if use.Got? {
      UnusedKeeps(l.recency, uses, use);
    } else if |l.items.Keys| < l.capacity {
      UsedFirst(l.recency, uses, use);
    } else {
      Swapped(l, use.key, use.value);
      UsedFirst(l.recency[..|l.recency| - 1], uses, use);
    }
  }

  /** After any uses the list is in order of last use. */
  lemma {:induction false} AfterByRecency<K, V>(capacity: nat, uses: seq<Use<K, V>>)
    requires capacity > 0
    ensures ByRecency(After(capacity, uses).recency, uses)
  {
    if uses != [] {
      var n := |uses| - 1;
      AfterByRecency(capacity, uses[..n]);
      UsedByRecency(After(capacity, uses[..n]), uses[..n], uses[n]);
      assert uses == uses[..n] + [uses[n]];
    }
  }

  /**
   After any history of uses: adding a key evicts something if and only if the key is new
   and the map full. It is then one key, and every other key has been used since.
   */
  lemma EvictsLeastRecent<K, V>(capacity: nat, uses: seq<Use<K, V>>, k: K)
    requires capacity > 0
    ensures var l := After(capacity, uses);
      && (Evicted(l, k) != {} <==> k !in l.items && |l.items| == capacity)
      && (forall v :: v in Evicted(l, k) ==>
            && v in l.items && Evicted(l, k) == {v}
            && forall other :: other in l.items && other != v ==> LastUse(uses, v) < LastUse(uses, other))
  {
    var l := After(capacity, uses);
    AfterByRecency(capacity, uses);
    if k !in l.items && |l.items.Keys| == capacity {
      AddWhenFull(l.recency, l.items.Keys, k);
      var n := |l.recency| - 1;
      ListedOnce(l, l.recency[n]);
      forall other | other in l.items && other != l.recency[n]
        ensures LastUse(uses, l.recency[n]) < LastUse(uses, other)
      {
        ListedOnce(l, other);
        var i :| 0 <= i <= n && l.recency[i] == other;
      }
    }
  }
}
