/** Python `dict[str, V]`: an association list kept in insertion order, so
    iteration order (which several operations expose) is part of the model. */
module Dict {
  import opened Wrappers

  type Dict<V> = seq<(string, V)>

  /** No key occurs twice. */
  predicate UniqueKeys<V>(d: Dict<V>) {
    forall i, j :: 0 <= i < j < |d| ==> d[i].0 != d[j].0
  }

  /** `list(d.keys())`. */
  function Keys<V>(d: Dict<V>): (r: seq<string>)
    ensures |r| == |d|
    ensures forall i :: 0 <= i < |d| ==> r[i] == d[i].0
  {
    if |d| == 0 then [] else [d[0].0] + Keys(d[1..])
  }

  /** `d.get(k)`. */
  function Get<V>(d: Dict<V>, k: string): (r: Option<V>)
    ensures r.None? <==> k !in Keys(d)
    ensures r.Some? ==> (k, r.value) in d
  {
    if |d| == 0 then None
    else if d[0].0 == k then Some(d[0].1)
    else
      assert Keys(d) == [d[0].0] + Keys(d[1..]);
      Get(d[1..], k)
  }

  /** With unique keys, each pair is what its key looks up. */
  lemma {:induction false} GetAt<V>(d: Dict<V>, j: nat)
    requires UniqueKeys(d) && j < |d|
    ensures Get(d, d[j].0) == Some(d[j].1)
  {
    var r := Get(d, d[j].0);
    assert d[j].0 in Keys(d);
    var i :| 0 <= i < |d| && d[i] == (d[j].0, r.value);
  }

  /** `d[k] = v`: an existing key keeps its position, a new key goes last. */
  function Put<V>(d: Dict<V>, k: string, v: V): (r: Dict<V>)
    ensures Get(r, k) == Some(v)
    ensures forall k' :: k' != k ==> Get(r, k') == Get(d, k')
  {
    if |d| == 0 then [(k, v)]
    else if d[0].0 == k then [(k, v)] + d[1..]
    else
      var r := [d[0]] + Put(d[1..], k, v);
      assert r[1..] == Put(d[1..], k, v);
      r
  }

  /** Overwriting keeps the key order; a new key is appended. */
  lemma {:induction false} PutKeys<V>(d: Dict<V>, k: string, v: V)
    ensures k in Keys(d) ==> Keys(Put(d, k, v)) == Keys(d)
    ensures k !in Keys(d) ==> Keys(Put(d, k, v)) == Keys(d) + [k]
  {
    if |d| > 0 {
      var r := Put(d, k, v);
      assert Keys(d) == [d[0].0] + Keys(d[1..]);
      assert Keys(r) == [r[0].0] + Keys(r[1..]);
      if d[0].0 != k {
        PutKeys(d[1..], k, v);
        assert r[1..] == Put(d[1..], k, v);
      } else {
        assert r[1..] == d[1..];
      }
    }
  }

  /** Every entry after a write is the written one or an old one. */
  lemma {:induction false} PutPairs<V>(d: Dict<V>, k: string, v: V)
    ensures forall p :: p in Put(d, k, v) ==> p == (k, v) || p in d
  {
    if |d| > 0 && d[0].0 != k {
      PutPairs(d[1..], k, v);
      assert Put(d, k, v) == [d[0]] + Put(d[1..], k, v);
    }
  }

  lemma {:induction false} UniqueFromKeys<V>(d: Dict<V>, e: Dict<V>)
    requires UniqueKeys(d)
    requires Keys(e) == Keys(d) || exists k :: k !in Keys(d) && Keys(e) == Keys(d) + [k]
    ensures UniqueKeys(e)
  {
    if Keys(e) != Keys(d) {
      var k :| k !in Keys(d) && Keys(e) == Keys(d) + [k];
      forall i, j | 0 <= i < j < |e|
        ensures e[i].0 != e[j].0
      {
        assert e[i].0 == Keys(e)[i] && e[j].0 == Keys(e)[j];
        if j == |d| {
          assert Keys(e)[i] == Keys(d)[i];
        } else {
          assert Keys(e)[i] == d[i].0 && Keys(e)[j] == d[j].0;
        }
      }
    } else {
      forall i, j | 0 <= i < j < |e|
        ensures e[i].0 != e[j].0
      {
        assert e[i].0 == Keys(e)[i] == d[i].0;
        assert e[j].0 == Keys(e)[j] == d[j].0;
      }
    }
  }

  /** Writing a key keeps the keys unique. */
  lemma {:induction false} PutUnique<V>(d: Dict<V>, k: string, v: V)
    requires UniqueKeys(d)
    ensures UniqueKeys(Put(d, k, v))
  {
    PutKeys(d, k, v);
    UniqueFromKeys(d, Put(d, k, v));
  }

  /** `del d[k]` (a no-op when `k` is absent). */
  function Remove<V>(d: Dict<V>, k: string): (r: Dict<V>)
    ensures Get(r, k) == None
    ensures forall k' :: k' != k ==> Get(r, k') == Get(d, k')
  {
    if |d| == 0 then []
    else if d[0].0 == k then Remove(d[1..], k)
    else
      var r := [d[0]] + Remove(d[1..], k);
      assert r[1..] == Remove(d[1..], k);
      r
  }

  lemma UniqueTail<V>(d: Dict<V>)
    requires |d| > 0 && UniqueKeys(d)
    ensures UniqueKeys(d[1..])
    ensures d[0].0 !in Keys(d[1..])
  {
    var t := d[1..];
    forall i, j | 0 <= i < j < |t|
      ensures t[i].0 != t[j].0
    {
      assert t[i] == d[i + 1] && t[j] == d[j + 1];
    }
    forall j | 0 <= j < |t|
      ensures t[j].0 != d[0].0
    {
      assert t[j] == d[j + 1];
    }
  }

  /** Removal only drops entries, and drops exactly one present key. */
  lemma RemoveShape<V>(d: Dict<V>, k: string)
    ensures forall p :: p in Remove(d, k) ==> p in d
    ensures k !in Keys(d) ==> Remove(d, k) == d
    ensures UniqueKeys(d) ==> UniqueKeys(Remove(d, k))
    ensures UniqueKeys(d) && k in Keys(d) ==> |Remove(d, k)| == |d| - 1
  {
    RemoveSubset(d, k);
    RemoveAbsent(d, k);
    if UniqueKeys(d) {
      RemoveUnique(d, k);
      RemoveCount(d, k);
    }
  }

  lemma {:induction false} RemoveSubset<V>(d: Dict<V>, k: string)
    ensures forall p :: p in Remove(d, k) ==> p in d
  {
    if |d| > 0 {
      RemoveSubset(d[1..], k);
      if d[0].0 != k {
        assert Remove(d, k) == [d[0]] + Remove(d[1..], k);
      }
    }
  }

  lemma {:induction false} RemoveAbsent<V>(d: Dict<V>, k: string)
    ensures k !in Keys(d) ==> Remove(d, k) == d
  {
    if |d| > 0 && k !in Keys(d) {
      var t := d[1..];
      assert d[0].0 != k;
      assert k !in Keys(t) by {
        forall j | 0 <= j < |t|
          ensures Keys(t)[j] != k
        {
          assert t[j] == d[j + 1];
        }
      }
      RemoveAbsent(t, k);
      assert Remove(d, k) == [d[0]] + t;
      assert [d[0]] + t == d;
    }
  }

  lemma {:induction false} RemoveUnique<V>(d: Dict<V>, k: string)
    requires UniqueKeys(d)
    ensures UniqueKeys(Remove(d, k))
  {
    if |d| > 0 {
      var t := d[1..];
      UniqueTail(d);
      RemoveUnique(t, k);
      if d[0].0 != k {
        var r := Remove(d, k);
        var rt := Remove(t, k);
        assert r == [d[0]] + rt;
        RemoveSubset(t, k);
        forall i, j | 0 <= i < j < |r|
          ensures r[i].0 != r[j].0
        {
          assert r[j] == rt[j - 1];
          if i > 0 {
            assert r[i] == rt[i - 1];
          } else {
            assert rt[j - 1] in t;
          }
        }
      }
    }
  }

  lemma {:induction false} RemoveCount<V>(d: Dict<V>, k: string)
    requires UniqueKeys(d)
    ensures k in Keys(d) ==> |Remove(d, k)| == |d| - 1
  {
    if |d| > 0 {
      var t := d[1..];
      UniqueTail(d);
      assert Keys(d) == [d[0].0] + Keys(t);
      if d[0].0 == k {
        RemoveAbsent(t, k);
      } else {
        RemoveCount(t, k);
      }
    }
  }

  /** The key/value view, forgetting the order. */
  function ToMap<V>(d: Dict<V>): (m: map<string, V>)
    ensures forall k :: k in m <==> k in Keys(d)
    ensures forall k :: k in m ==> Get(d, k) == Some(m[k])
  {
    if |d| == 0 then map[]
    else
      assert Keys(d) == [d[0].0] + Keys(d[1..]);
      ToMap(d[1..])[d[0].0 := d[0].1]
  }
}
