/**
 * Insertion-ordered dictionaries, the shape of Python's `dict`: a sequence of
 * key/value pairs. Lookup takes the first pair with the key; assignment
 * overwrites that pair in place or appends a new pair at the end.
 */
module OrderedMap {
  import opened Wrappers

  type OMap<K(==), V> = seq<(K, V)>

  /** The keys in iteration order. */
  function Keys<K(==), V>(m: OMap<K, V>): (ks: seq<K>)
    ensures |ks| == |m|
    ensures forall i :: 0 <= i < |m| ==> ks[i] == m[i].0
  {
    if |m| == 0 then [] else [m[0].0] + Keys(m[1..])
  }

  /** No key occurs twice, as for every Python dict. */
  predicate DistinctKeys<K(==), V>(m: OMap<K, V>) {
    forall i, j :: 0 <= i < j < |m| ==> m[i].0 != m[j].0
  }

  /** `d.get(k)`: the value of the first pair with key `k`, if any. */
  function Get<K(==), V>(m: OMap<K, V>, k: K): (r: Option<V>)
    ensures r.None? <==> k !in Keys(m)
    ensures r.Some? ==> (k, r.value) in m
  {
    if |m| == 0 then None
    else if m[0].0 == k then Some(m[0].1)
    else
      assert m == [m[0]] + m[1..];
      Get(m[1..], k)
  }

  /** `d[k] = v`: overwrite the first pair with key `k`, or append `(k, v)`. */
  function Put<K(==), V>(m: OMap<K, V>, k: K, v: V): (r: OMap<K, V>)
  {
    if |m| == 0 then [(k, v)]
    else if m[0].0 == k then [(k, v)] + m[1..]
    else [m[0]] + Put(m[1..], k, v)
  }

  /** The lookup finds the first pair carrying the key. */
  lemma {:induction false} FirstMatch<K, V>(m: OMap<K, V>, i: nat)
    requires i < |m|
    requires forall j :: 0 <= j < i ==> m[j].0 != m[i].0
    ensures Get(m, m[i].0) == Some(m[i].1)
  {
    if i > 0 {
      FirstMatch(m[1..], i - 1);
    }
  }

  /** After `d[k] = v`, `d.get(k)` is `v`. */
  lemma {:induction false} GetPutSame<K, V>(m: OMap<K, V>, k: K, v: V)
    ensures Get(Put(m, k, v), k) == Some(v)
  {
    if |m| > 0 && m[0].0 != k {
      GetPutSame(m[1..], k, v);
      assert Put(m, k, v)[1..] == Put(m[1..], k, v);
    }
  }

  /** After `d[k] = v`, every other key reads as before. */
  lemma {:induction false} GetPutOther<K, V>(m: OMap<K, V>, k: K, v: V, k': K)
    requires k' != k
    ensures Get(Put(m, k, v), k') == Get(m, k')
  {
    if |m| == 0 {
    } else if m[0].0 == k {
      assert Put(m, k, v)[1..] == m[1..];
    } else if m[0].0 != k' {
      GetPutOther(m[1..], k, v, k');
      assert Put(m, k, v)[1..] == Put(m[1..], k, v);
    }
  }

  /** Every pair after `d[k] = v` is an old pair or the new one. */
  lemma {:induction false} PutEntries<K, V>(m: OMap<K, V>, k: K, v: V)
    ensures forall e :: e in Put(m, k, v) ==> e in m || e == (k, v)
  {
    if |m| > 0 && m[0].0 != k {
      PutEntries(m[1..], k, v);
      assert Put(m, k, v) == [m[0]] + Put(m[1..], k, v);
      assert forall e :: e in m[1..] ==> e in m;
    } else if |m| > 0 {
      assert forall e :: e in m[1..] ==> e in m;
    }
  }

  /** Assignment keeps the order of existing keys and appends a new key at the end. */
  lemma {:induction false} KeysPut<K, V>(m: OMap<K, V>, k: K, v: V)
    ensures k in Keys(m) ==> Keys(Put(m, k, v)) == Keys(m)
    ensures k !in Keys(m) ==> Keys(Put(m, k, v)) == Keys(m) + [k]
  {
    if |m| > 0 && m[0].0 != k {
      KeysPut(m[1..], k, v);
      assert Keys(m) == [m[0].0] + Keys(m[1..]);
      assert Put(m, k, v) == [m[0]] + Put(m[1..], k, v);
      assert Keys(Put(m, k, v)) == [m[0].0] + Keys(Put(m[1..], k, v));
    } else if |m| > 0 {
      assert Keys(Put(m, k, v)) == [k] + Keys(m[1..]);
    }
  }

  /** Dropping the first pair keeps the keys distinct, and no later key repeats the first. */
  lemma DistinctKeysTail<K, V>(m: OMap<K, V>)
    requires DistinctKeys(m) && |m| > 0
    ensures DistinctKeys(m[1..])
    ensures forall j :: 0 < j < |m| ==> m[j].0 != m[0].0
  {
    forall i, j | 0 <= i < j < |m[1..]|
      ensures m[1..][i].0 != m[1..][j].0
    {
      assert m[1..][i] == m[i + 1] && m[1..][j] == m[j + 1];
    }
  }

  /** Assignment never introduces a duplicate key. */
  lemma {:induction false} PutKeepsDistinct<K, V>(m: OMap<K, V>, k: K, v: V)
    requires DistinctKeys(m)
    ensures DistinctKeys(Put(m, k, v))
  {
    KeysPut(m, k, v);
    var r := Put(m, k, v);
    forall i, j | 0 <= i < j < |r|
      ensures r[i].0 != r[j].0
    {
      assert Keys(r)[i] == r[i].0 && Keys(r)[j] == r[j].0;
      if j < |m| {
        assert Keys(m)[i] == m[i].0 && Keys(m)[j] == m[j].0;
      } else {
        assert Keys(m)[i] == m[i].0;
      }
    }
  }
}
