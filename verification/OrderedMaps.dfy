/**
 A JavaScript `Map` as the sequence of its entries in insertion order, which is the
 order its iterator visits and the order both LRU structures of the OAuth code evict in.
 */
module OrderedMaps {
  import opened Prelude

  datatype Entry<+K, +V> = Entry(key: K, value: V)

  ghost function Keys<K, V>(m: seq<Entry<K, V>>): set<K> {
    if m == [] then {} else {m[0].key} + Keys(m[1..])
  }

  /** What a Map guarantees: no key occurs twice. */
  ghost predicate Distinct<K, V>(m: seq<Entry<K, V>>) {
    m == [] || (m[0].key !in Keys(m[1..]) && Distinct(m[1..]))
  }

  function Get<K(==), V>(m: seq<Entry<K, V>>, k: K): (r: Option<V>)
    ensures r.Some? <==> k in Keys(m)
  {
    if m == [] then None
    else if m[0].key == k then Some(m[0].value)
    else Get(m[1..], k)
  }

  function Delete<K(==), V>(m: seq<Entry<K, V>>, k: K): seq<Entry<K, V>> {
    if m == [] then []
    else if m[0].key == k then Delete(m[1..], k)
    else [m[0]] + Delete(m[1..], k)
  }

  /** Deletes and re-inserts: the entry becomes the most recently touched one. */
  function Touch<K(==), V>(m: seq<Entry<K, V>>, k: K, v: V): seq<Entry<K, V>> {
    Delete(m, k) + [Entry(k, v)]
  }

  /** `map.set`: in place for a key already present, at the end otherwise. */
  function Put<K(==), V>(m: seq<Entry<K, V>>, k: K, v: V): seq<Entry<K, V>> {
    if m == [] then [Entry(k, v)]
    else if m[0].key == k then [Entry(k, v)] + m[1..]
    else [m[0]] + Put(m[1..], k, v)
  }

  /** Evicts from the front, oldest first, until at most `cap` entries remain. */
  function Trim<K, V>(m: seq<Entry<K, V>>, cap: nat): seq<Entry<K, V>> {
    if |m| <= cap then m else m[|m| - cap..]
  }

  /** The keys touched after `k`. */
  ghost function Younger<K, V>(m: seq<Entry<K, V>>, k: K): set<K> {
    if m == [] then {}
    else if m[0].key == k then Keys(m[1..])
    else Younger(m[1..], k)
  }

  lemma ConsIs<K, V>(e: Entry<K, V>, rest: seq<Entry<K, V>>, q: K)
    ensures Keys([e] + rest) == {e.key} + Keys(rest)
    ensures Distinct([e] + rest) <==> e.key !in Keys(rest) && Distinct(rest)
    ensures Get([e] + rest, q) == if q == e.key then Some(e.value) else Get(rest, q)
    ensures Younger([e] + rest, q) == if q == e.key then Keys(rest) else Younger(rest, q)
  {
    assert ([e] + rest)[1..] == rest;
  }

  lemma {:induction false} DeleteKeys<K, V>(m: seq<Entry<K, V>>, k: K)
    requires Distinct(m)
    ensures Distinct(Delete(m, k)) && Keys(Delete(m, k)) == Keys(m) - {k}
    ensures |Delete(m, k)| == if k in Keys(m) then |m| - 1 else |m|
    ensures k !in Keys(m) ==> Delete(m, k) == m
  {
    if m != [] {
      DeleteKeys(m[1..], k);
      ConsIs(m[0], Delete(m[1..], k), k);
    }
  }

  lemma {:induction false} DeleteGet<K, V>(m: seq<Entry<K, V>>, k: K, q: K)
    requires Distinct(m)
    ensures Get(Delete(m, k), q) == if q == k then None else Get(m, q)
    ensures q != k ==> Younger(Delete(m, k), q) <= Younger(m, q) - {k}
  {
    DeleteKeys(m, k);
    if m != [] {
      DeleteKeys(m[1..], k);
      DeleteGet(m[1..], k, q);
      ConsIs(m[0], Delete(m[1..], k), q);
      if m[0].key == k { YoungerOfAbsent(m[1..], k); YoungerKeys(m[1..], q); }
    }
  }

  lemma {:induction false} AppendKeys<K, V>(m: seq<Entry<K, V>>, e: Entry<K, V>)
    ensures Keys(m + [e]) == Keys(m) + {e.key}
    ensures Distinct(m) && e.key !in Keys(m) ==> Distinct(m + [e])
  {
    if m != [] {
      assert m + [e] == [m[0]] + (m[1..] + [e]);
      ConsIs(m[0], m[1..] + [e], e.key);
      AppendKeys(m[1..], e);
    }
  }

  lemma {:induction false} AppendGet<K, V>(m: seq<Entry<K, V>>, e: Entry<K, V>, q: K)
    requires e.key !in Keys(m)
    ensures Get(m + [e], q) == if q == e.key then Some(e.value) else Get(m, q)
    ensures q in Keys(m) ==> Younger(m + [e], q) == Younger(m, q) + {e.key}
    ensures q !in Keys(m) ==> Younger(m + [e], q) == {}
  {
    if m != [] {
      assert m + [e] == [m[0]] + (m[1..] + [e]);
      ConsIs(m[0], m[1..] + [e], q);
      AppendKeys(m[1..], e);
      AppendGet(m[1..], e, q);
    }
  }

  lemma TouchKeys<K, V>(m: seq<Entry<K, V>>, k: K, v: V)
    requires Distinct(m)
    ensures Distinct(Touch(m, k, v)) && Keys(Touch(m, k, v)) == Keys(m) + {k}
    ensures |Touch(m, k, v)| == if k in Keys(m) then |m| else |m| + 1
  {
    DeleteKeys(m, k);
    AppendKeys(Delete(m, k), Entry(k, v));
  }

  lemma {:induction false} PutFacts<K, V>(m: seq<Entry<K, V>>, k: K, v: V, q: K)
    requires Distinct(m)
    ensures Distinct(Put(m, k, v)) && Keys(Put(m, k, v)) == Keys(m) + {k}
    ensures Get(Put(m, k, v), q) == if q == k then Some(v) else Get(m, q)
  {
    if m != [] {
      PutFacts(m[1..], k, v, q);
      if m[0].key == k { ConsIs(Entry(k, v), m[1..], q); } else { ConsIs(m[0], Put(m[1..], k, v), q); }
    }
  }

  /** Touching a key adds at most that key to those younger than another. */
  lemma TouchGet<K, V>(m: seq<Entry<K, V>>, k: K, v: V, q: K)
    requires Distinct(m)
    ensures Get(Touch(m, k, v), q) == if q == k then Some(v) else Get(m, q)
    ensures Younger(Touch(m, k, v), q) <= if q == k then {} else Younger(m, q) + {k}
  {
    DeleteKeys(m, k);
    DeleteGet(m, k, q);
    AppendGet(Delete(m, k), Entry(k, v), q);
    YoungerOfAbsent(Delete(m, k), k);
  }

  lemma {:induction false} YoungerOfAbsent<K, V>(m: seq<Entry<K, V>>, k: K)
    requires k !in Keys(m)
    ensures Younger(m, k) == {}
  {
    if m != [] { YoungerOfAbsent(m[1..], k); }
  }

  lemma {:induction false} YoungerKeys<K, V>(m: seq<Entry<K, V>>, k: K)
    ensures Younger(m, k) <= Keys(m)
    ensures Distinct(m) ==> k !in Younger(m, k)
  {
    if m != [] { YoungerKeys(m[1..], k); }
  }

  lemma {:induction false} KeysSize<K, V>(m: seq<Entry<K, V>>)
    requires Distinct(m)
    ensures |Keys(m)| == |m|
  {
    if m != [] { KeysSize(m[1..]); }
  }

  lemma {:induction false} DropKeys<K, V>(m: seq<Entry<K, V>>, n: nat)
    requires Distinct(m) && n <= |m|
    ensures Distinct(m[n..]) && Keys(m[n..]) <= Keys(m)
  {
    if n > 0 {
      DropKeys(m[1..], n - 1);
      assert m[1..][n - 1..] == m[n..];
    } else {
      assert m[0..] == m;
    }
  }

  lemma {:induction false} DropGet<K, V>(m: seq<Entry<K, V>>, n: nat, q: K)
    requires Distinct(m) && n <= |m|
    ensures q in Keys(m[n..]) ==> Get(m[n..], q) == Get(m, q) && Younger(m[n..], q) == Younger(m, q)
    ensures q in Keys(m) ==> (q in Keys(m[n..]) <==> |Younger(m, q)| < |m| - n)
  {
    if n > 0 {
      DropGet(m[1..], n - 1, q);
      DropKeys(m[1..], n - 1);
      assert m[1..][n - 1..] == m[n..];
      KeysSize(m[1..]);
    } else {
      assert m[0..] == m;
      YoungerSize(m, q);
    }
  }

  lemma {:induction false} YoungerSize<K, V>(m: seq<Entry<K, V>>, q: K)
    requires Distinct(m)
    ensures q in Keys(m) ==> |Younger(m, q)| < |m|
  {
    if m != [] {
      KeysSize(m[1..]);
      YoungerSize(m[1..], q);
    }
  }

  lemma TrimKeys<K, V>(m: seq<Entry<K, V>>, cap: nat)
    requires Distinct(m)
    ensures Distinct(Trim(m, cap)) && Keys(Trim(m, cap)) <= Keys(m) && |Trim(m, cap)| <= cap
  {
    if |m| > cap { DropKeys(m, |m| - cap); }
  }

  /** Trimming keeps exactly the keys with fewer than `cap` younger ones. */
  lemma TrimGet<K, V>(m: seq<Entry<K, V>>, cap: nat, q: K)
    requires Distinct(m)
    ensures q in Keys(m) ==> (q in Keys(Trim(m, cap)) <==> |Younger(m, q)| < cap)
    ensures q in Keys(Trim(m, cap)) ==> Get(Trim(m, cap), q) == Get(m, q) && Younger(Trim(m, cap), q) == Younger(m, q)
  {
    if |m| > cap { DropGet(m, |m| - cap, q); } else { YoungerSize(m, q); }
  }

  lemma TrimOneLess<K, V>(m: seq<Entry<K, V>>, cap: nat)
    requires |m| > cap
    ensures Trim(m[1..], cap) == Trim(m, cap)
  {
    assert m[1..][|m| - 1 - cap..] == m[|m| - cap..];
  }

  lemma TrimAppend<K, V>(m: seq<Entry<K, V>>, e: Entry<K, V>, cap: nat)
    requires cap > 0
    ensures Trim(m + [e], cap) == Trim(m, cap - 1) + [e]
  {}

  /**
   The LRU guarantee: writing another key under a bound of `cap` entries evicts `q` only
   if `cap` distinct other keys, the new one included, have been touched since `q` was.
   */
  lemma TouchAndTrimKeeps<K, V>(m: seq<Entry<K, V>>, k: K, v: V, cap: nat, q: K)
    requires Distinct(m) && q in Keys(m) && q != k
    requires |Younger(m, q) + {k}| < cap
    ensures Get(Trim(Touch(m, k, v), cap), q) == Get(m, q)
    ensures Younger(Trim(Touch(m, k, v), cap), q) <= Younger(m, q) + {k}
  {
    TouchKeys(m, k, v);
    TouchGet(m, k, v, q);
    SubsetSize(Younger(Touch(m, k, v), q), Younger(m, q) + {k});
    TrimGet(Touch(m, k, v), cap, q);
  }
}
