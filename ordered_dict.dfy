/**
 The .NET `Dictionary<K, V>` as the core uses it: a sequence of key/value
 entries whose enumeration order is insertion order (no entry is removed while
 a dictionary is enumerated anywhere in the core). `Add` throws on a duplicate
 key, the indexer setter (`Put`) overwrites in place or appends.
 */
module OrderedDict {
  import opened Common

  type Entries<K, V> = seq<(K, V)>

  /** No key occurs twice. */
  predicate DistinctKeys<K(==, !new), V>(e: Entries<K, V>) {
    |e| == 0 || (e[0].0 !in Keys(e[1..]) && DistinctKeys(e[1..]))
  }

  function Keys<K(==, !new), V>(e: Entries<K, V>): (ks: set<K>)
    ensures forall i :: 0 <= i < |e| ==> e[i].0 in ks
  {
    if |e| == 0 then {} else {e[0].0} + Keys(e[1..])
  }

  /** The key list in enumeration order. */
  function KeyList<K(==, !new), V>(e: Entries<K, V>): (ks: seq<K>)
    ensures |ks| == |e| && forall i :: 0 <= i < |e| ==> ks[i] == e[i].0
  {
    if |e| == 0 then [] else [e[0].0] + KeyList(e[1..])
  }

  /** The indexer getter / TryGetValue: the value stored under `k`. */
  function Get<K(==, !new), V>(e: Entries<K, V>, k: K): (r: Option<V>)
    ensures r.Some? <==> k in Keys(e)
  {
    if |e| == 0 then None else if e[0].0 == k then Some(e[0].1) else Get(e[1..], k)
  }

  predicate ContainsKey<K(==, !new), V>(e: Entries<K, V>, k: K) {
    k in Keys(e)
  }

  /** The indexer setter `d[k] = v`. */
  function Put<K(==, !new), V>(e: Entries<K, V>, k: K, v: V): (r: Entries<K, V>)
    ensures Keys(r) == Keys(e) + {k}
    ensures |r| == if k in Keys(e) then |e| else |e| + 1
    ensures forall i :: 0 <= i < |e| ==> r[i].0 == e[i].0
  {
    if |e| == 0 then [(k, v)]
    else if e[0].0 == k then [(k, v)] + e[1..]
    else [e[0]] + Put(e[1..], k, v)
  }

  /** After `d[k] = v`, `k` maps to `v` and every other key is unchanged. */
  lemma {:induction false} PutGet<K(!new), V>(e: Entries<K, V>, k: K, v: V, k': K)
    ensures Get(Put(e, k, v), k') == if k' == k then Some(v) else Get(e, k')
  {
    if |e| > 0 && e[0].0 != k {
      PutGet(e[1..], k, v, k');
    }
  }

  /** `d[k] = v` keeps the keys distinct. */
  lemma {:induction false} PutDistinct<K(!new), V>(e: Entries<K, V>, k: K, v: V)
    requires DistinctKeys(e)
    ensures DistinctKeys(Put(e, k, v))
  {
    if |e| > 0 && e[0].0 != k {
      PutDistinct(e[1..], k, v);
    }
  }

  /** Appending keeps keys distinct exactly when the new key is fresh. */
  lemma {:induction false} AppendDistinct<K(!new), V>(e: Entries<K, V>, x: (K, V))
    ensures DistinctKeys(e + [x]) <==> DistinctKeys(e) && x.0 !in Keys(e)
  {
    if |e| > 0 {
      assert (e + [x])[1..] == e[1..] + [x];
      AppendDistinct(e[1..], x);
      KeysAppend(e[1..], x);
    }
  }

  /** Appending an entry whose key is already present makes the keys repeat. */
  lemma {:induction false} RepeatBreaksDistinct<K(!new), V>(a: Entries<K, V>, b: Entries<K, V>)
    requires |b| > 0 && b[0].0 in Keys(a)
    ensures !DistinctKeys(a + b)
  {
    assert |a| > 0;
    assert (a + b)[1..] == a[1..] + b;
    if a[0].0 == b[0].0 {
      assert (a + b)[1..][|a| - 1] == b[0];
    } else {
      RepeatBreaksDistinct(a[1..], b);
    }
  }

  /** In a list with distinct keys, entries at two positions have different keys. */
  lemma KeysAtDiffer<K(!new), V>(e: Entries<K, V>, i: nat, j: nat)
    requires i < j < |e| && DistinctKeys(e)
    ensures e[i].0 != e[j].0
  {
    if e[i].0 == e[j].0 {
      assert e[..j][i] == e[i];
      assert e[j..][0] == e[j];
      assert e == e[..j] + e[j..];
      RepeatBreaksDistinct(e[..j], e[j..]);
    }
  }

  /** The ArgumentException message of Dictionary.Add on a key already present. */
  const DuplicateKeyMessage := "An item with the same key has already been added."

  /** Dictionary.Add: throws ArgumentException when the key is already present. */
  function Add<K(==, !new), V>(e: Entries<K, V>, k: K, v: V): (r: Result<Entries<K, V>>)
    ensures r.Fail? <==> k in Keys(e)
    ensures r.Fail? ==> r.error.kind == ArgumentException
    ensures r.Ok? ==> r.value == e + [(k, v)] && r.value == Put(e, k, v)
  {
    if k in Keys(e) then Throw(ArgumentException, DuplicateKeyMessage)
    else
      AppendIsPut(e, k, v);
      Ok(e + [(k, v)])
  }

  lemma AppendIsPut<K(!new), V>(e: Entries<K, V>, k: K, v: V)
    requires k !in Keys(e)
    ensures Put(e, k, v) == e + [(k, v)]
  {
    if |e| > 0 {
      assert e[0].0 != k;
      AppendIsPut(e[1..], k, v);
      assert e == [e[0]] + e[1..];
    }
  }

  /** Dictionary.Remove: drops the entry for `k`, if any. */
  function Remove<K(==, !new), V>(e: Entries<K, V>, k: K): (r: Entries<K, V>)
    ensures Keys(r) == Keys(e) - {k}
    ensures forall k' :: k' != k ==> Get(r, k') == Get(e, k')
    ensures |r| <= |e|
  {
    if |e| == 0 then []
    else if e[0].0 == k then Remove(e[1..], k)
    else [e[0]] + Remove(e[1..], k)
  }

  /** The dictionary `e` after `d[k] = v` for every entry of `c`, in order. */
  function Merge<K(==, !new), V>(e: Entries<K, V>, c: Entries<K, V>): Entries<K, V>
  {
    if |c| == 0 then e else Put(Merge(e, c[..|c| - 1]), c[|c| - 1].0, c[|c| - 1].1)
  }

  lemma {:induction false} KeysAppend<K(!new), V>(e: Entries<K, V>, x: (K, V))
    ensures Keys(e + [x]) == Keys(e) + {x.0}
    ensures Get(e + [x], x.0) == if x.0 in Keys(e) then Get(e, x.0) else Some(x.1)
    ensures forall k :: k != x.0 ==> Get(e + [x], k) == Get(e, k)
  {
    if |e| > 0 {
      KeysAppend(e[1..], x);
      assert (e + [x])[1..] == e[1..] + [x];
    }
  }

  /** Merging `c` into `e` yields the union of their keys, whether or not `c` repeats a key. */
  lemma {:induction false} MergeKeys<K(!new), V>(e: Entries<K, V>, c: Entries<K, V>)
    ensures Keys(Merge(e, c)) == Keys(e) + Keys(c)
  {
    if |c| > 0 {
      var c', x := c[..|c| - 1], c[|c| - 1];
      assert c == c' + [x];
      MergeKeys(e, c');
      KeysAppend(c', x);
    }
  }

  /**
   Merging `c` into `e` yields the union of their keys; keys of `c` take their
   value from `c`, all other keys keep their value in `e`; existing entries keep
   their position and distinct keys stay distinct.
   */
  lemma {:induction false} MergeSpec<K(!new), V>(e: Entries<K, V>, c: Entries<K, V>)
    requires DistinctKeys(c)
    ensures Keys(Merge(e, c)) == Keys(e) + Keys(c)
    ensures forall k :: Get(Merge(e, c), k) == if k in Keys(c) then Get(c, k) else Get(e, k)
    ensures |Merge(e, c)| >= |e| && forall i :: 0 <= i < |e| ==> Merge(e, c)[i].0 == e[i].0
    ensures DistinctKeys(e) ==> DistinctKeys(Merge(e, c))
  {
    if |c| > 0 {
      var c', x := c[..|c| - 1], c[|c| - 1];
      assert c == c' + [x];
      AppendDistinct(c', x);
      MergeSpec(e, c');
      KeysAppend(c', x);
      PutGet(Merge(e, c'), x.0, x.1, x.0);
      forall k | k != x.0 ensures Get(Merge(e, c), k) == Get(Merge(e, c'), k) {
        PutGet(Merge(e, c'), x.0, x.1, k);
      }
      if DistinctKeys(e) {
        PutDistinct(Merge(e, c'), x.0, x.1);
      }
    }
  }
}
