/**
 * Insertion-ordered maps, as a JavaScript `Map` behaves: `set` on a new key
 * appends an entry, `set` on a present key replaces its value in place, and
 * `delete` removes the entry. Iteration follows insertion order, which the
 * registries of the server rely on (`getActiveRooms`, `getSessionsInRoom`).
 */
module OrderedMaps {
  import opened Wrappers

  type OMap<K(==,!new), V> = seq<(K, V)>

  /** The keys in iteration order. */
  function Keys<K(==,!new), V>(m: OMap<K, V>): (ks: seq<K>)
    ensures |ks| == |m|
    ensures forall i :: 0 <= i < |m| ==> ks[i] == m[i].0
  {
    if |m| == 0 then [] else [m[0].0] + Keys(m[1..])
  }

  /** The values in iteration order. */
  function Values<K(==,!new), V>(m: OMap<K, V>): (vs: seq<V>)
    ensures |vs| == |m|
    ensures forall i :: 0 <= i < |m| ==> vs[i] == m[i].1
  {
    if |m| == 0 then [] else [m[0].1] + Values(m[1..])
  }

  /** No key occurs twice. */
  predicate Valid<K(==,!new), V>(m: OMap<K, V>) {
    |m| == 0 || (m[0].0 !in Keys(m[1..]) && Valid(m[1..]))
  }

  function Get<K(==,!new), V>(m: OMap<K, V>, k: K): (r: Option<V>)
    ensures r.Some? <==> k in Keys(m)
    ensures r.Some? ==> (k, r.value) in m
  {
    if |m| == 0 then None
    else if m[0].0 == k then Some(m[0].1)
    else Get(m[1..], k)
  }

  /** `Map.prototype.set`: replace in place, or append a new entry. */
  function Put<K(==,!new), V>(m: OMap<K, V>, k: K, v: V): (r: OMap<K, V>)
    ensures Get(r, k) == Some(v)
    ensures forall k' :: k' != k ==> Get(r, k') == Get(m, k')
    ensures k in Keys(m) ==> Keys(r) == Keys(m)
    ensures k !in Keys(m) ==> Keys(r) == Keys(m) + [k]
    ensures Valid(m) ==> Valid(r)
  {
    SetGet(m, k, v);
    SetKeys(m, k, v);
    if Valid(m) then SetValid(m, k, v); Set(m, k, v) else Set(m, k, v)
  }

  /** The entries after `set`: the key's entry replaced where it stands, or appended. */
  function Set<K(==,!new), V>(m: OMap<K, V>, k: K, v: V): (r: OMap<K, V>)
    ensures |r| == |m| || |r| == |m| + 1
  {
    if |m| == 0 then [(k, v)]
    else if m[0].0 == k then [(k, v)] + m[1..]
    else [m[0]] + Set(m[1..], k, v)
  }

  /** After `set` the key maps to the new value and every other key to its old one. */
  lemma {:induction false} SetGet<K(!new), V>(m: OMap<K, V>, k: K, v: V)
    ensures forall k' :: Get(Set(m, k, v), k') == if k' == k then Some(v) else Get(m, k')
    decreases |m|
  {
    if |m| > 0 {
      assert m == [m[0]] + m[1..];
      if m[0].0 == k {
        Cons((k, v), m[1..]);
        Cons(m[0], m[1..]);
      } else {
        SetGet(m[1..], k, v);
        Cons(m[0], Set(m[1..], k, v));
        Cons(m[0], m[1..]);
      }
    }
  }

  /** `set` on a new key appends its entry. */
  lemma {:induction false} SetAppends<K(!new), V>(m: OMap<K, V>, k: K, v: V)
    requires k !in Keys(m)
    ensures Set(m, k, v) == m + [(k, v)]
    decreases |m|
  {
    if |m| > 0 {
      assert m == [m[0]] + m[1..];
      Cons(m[0], m[1..]);
      SetAppends(m[1..], k, v);
    }
  }

  /** `set` keeps the key order, appending a key that was not there. */
  lemma {:induction false} SetKeys<K(!new), V>(m: OMap<K, V>, k: K, v: V)
    ensures Keys(Set(m, k, v)) == if k in Keys(m) then Keys(m) else Keys(m) + [k]
    decreases |m|
  {
    if |m| > 0 {
      assert m == [m[0]] + m[1..];
      Cons(m[0], m[1..]);
      if m[0].0 == k {
        Cons((k, v), m[1..]);
      } else {
        SetKeys(m[1..], k, v);
        Cons(m[0], Set(m[1..], k, v));
      }
    }
  }

  /** `set` introduces no duplicate key. */
  lemma {:induction false} SetValid<K(!new), V>(m: OMap<K, V>, k: K, v: V)
    requires Valid(m)
    ensures Valid(Set(m, k, v))
    decreases |m|
  {
    if |m| > 0 {
      assert m == [m[0]] + m[1..];
      Cons(m[0], m[1..]);
      if m[0].0 == k {
        Cons((k, v), m[1..]);
      } else {
        SetValid(m[1..], k, v);
        SetKeys(m[1..], k, v);
        Cons(m[0], Set(m[1..], k, v));
      }
    }
  }

  /** `Map.prototype.delete`: drop the entry for `k`, keeping the others in order. */
  function Remove<K(==,!new), V>(m: OMap<K, V>, k: K): (r: OMap<K, V>)
    ensures Get(r, k) == None
    ensures forall k' :: k' != k ==> Get(r, k') == Get(m, k')
    ensures forall k' :: k' in Keys(r) <==> k' in Keys(m) && k' != k
    ensures k !in Keys(m) ==> r == m
    ensures Valid(m) ==> Valid(r)
    ensures Valid(m) && k in Keys(m) ==> |r| == |m| - 1
    ensures |r| <= |m|
  {
    if |m| == 0 then m
    else
      var rest := Remove(m[1..], k);
      if m[0].0 == k then rest
      else
        Cons(m[0], rest);
        [m[0]] + rest
  }

  /** An entry in front of a map: its key comes first and shadows nothing else. */
  lemma Cons<K(!new), V>(e: (K, V), rest: OMap<K, V>)
    ensures Keys([e] + rest) == [e.0] + Keys(rest)
    ensures forall k :: Get([e] + rest, k) == if e.0 == k then Some(e.1) else Get(rest, k)
    ensures Valid([e] + rest) <==> e.0 !in Keys(rest) && Valid(rest)
  {
    assert ([e] + rest)[0] == e;
    assert ([e] + rest)[1..] == rest;
  }

  /** In a valid map an entry is found by its key. */
  lemma {:induction false} GetEntry<K(!new), V>(m: OMap<K, V>, i: nat)
    requires Valid(m)
    requires i < |m|
    ensures Get(m, m[i].0) == Some(m[i].1)
  {
    if i > 0 {
      assert m[i] == m[1..][i - 1];
      GetEntry(m[1..], i - 1);
      assert m[i].0 in Keys(m[1..]);
    }
  }

  /** `Map.prototype.size`: a valid map has as many entries as distinct keys. */
  lemma {:induction false} KeyCount<K(!new), V>(m: OMap<K, V>)
    requires Valid(m)
    ensures |set k | k in Keys(m)| == |m|
  {
    if |m| > 0 {
      KeyCount(m[1..]);
      var rest := set k | k in Keys(m[1..]);
      assert (set k | k in Keys(m)) == {m[0].0} + rest;
      assert m[0].0 !in rest;
    }
  }
}
