/**
  Insertion-ordered dictionaries, as Python's `dict` behaves: assigning to a
  present key keeps its position, assigning to a new key appends it.
 */
module Dicts {
  import opened Wrappers

  type Dict<K, V> = seq<(K, V)>

  function Keys<K, V>(d: Dict<K, V>): seq<K> {
    seq(|d|, i requires 0 <= i < |d| => d[i].0)
  }

  /** No key occurs twice. */
  predicate DistinctKeys<K(==), V>(d: Dict<K, V>) {
    forall i, j :: 0 <= i < j < |d| ==> d[i].0 != d[j].0
  }

  /** `d.get(k)`: the value stored under k, if any. */
  function Get<K(==), V>(d: Dict<K, V>, k: K): Option<V> {
    if d == [] then None
    else if d[0].0 == k then Some(d[0].1)
    else Get(d[1..], k)
  }

  /** `d[k] = v`. */
  function Put<K(==), V>(d: Dict<K, V>, k: K, v: V): Dict<K, V> {
    if d == [] then [(k, v)]
    else if d[0].0 == k then [(k, v)] + d[1..]
    else [d[0]] + Put(d[1..], k, v)
  }

  /** `d.update(e)`: every entry of e assigned, in order. */
  function Update<K(==), V>(d: Dict<K, V>, e: Dict<K, V>): Dict<K, V> {
    if e == [] then d else Put(Update(d, e[..|e| - 1]), e[|e| - 1].0, e[|e| - 1].1)
  }

  /** The value of the last entry of e with key k. */
  function GetLast<K(==), V>(e: Dict<K, V>, k: K): Option<V> {
    if e == [] then None
    else if e[|e| - 1].0 == k then Some(e[|e| - 1].1)
    else GetLast(e[..|e| - 1], k)
  }

  lemma {:induction false} GetSome<K, V>(d: Dict<K, V>, k: K)
    ensures Get(d, k).Some? <==> k in Keys(d)
    ensures Get(d, k).Some? ==> (k, Get(d, k).value) in d
  {
    if d != [] {
      GetSome(d[1..], k);
      assert Keys(d) == [d[0].0] + Keys(d[1..]);
    }
  }

  /** In a dictionary without repeated keys, Get finds every entry. */
  lemma {:induction false} GetEntry<K, V>(d: Dict<K, V>, i: nat)
    requires DistinctKeys(d) && i < |d|
    ensures Get(d, d[i].0) == Some(d[i].1)
  {
    if i > 0 {
      GetEntry(d[1..], i - 1);
    }
  }

  lemma {:induction false} PutGet<K, V>(d: Dict<K, V>, k: K, v: V, k': K)
    ensures Get(Put(d, k, v), k') == if k' == k then Some(v) else Get(d, k')
  {
    if d != [] && d[0].0 != k {
      PutGet(d[1..], k, v, k');
    }
  }

  lemma {:induction false} PutKeys<K, V>(d: Dict<K, V>, k: K, v: V)
    ensures Keys(Put(d, k, v)) == if k in Keys(d) then Keys(d) else Keys(d) + [k]
  {
    if d != [] {
      assert Keys(d) == [d[0].0] + Keys(d[1..]);
      if d[0].0 != k {
        PutKeys(d[1..], k, v);
        assert Keys(Put(d, k, v)) == [d[0].0] + Keys(Put(d[1..], k, v));
      } else {
        assert Keys(Put(d, k, v)) == [k] + Keys(d[1..]);
      }
    }
  }

  lemma PutDistinct<K, V>(d: Dict<K, V>, k: K, v: V)
    requires DistinctKeys(d)
    ensures DistinctKeys(Put(d, k, v))
  {
    PutKeys(d, k, v);
    var r := Put(d, k, v);
    assert forall i :: 0 <= i < |r| ==> r[i].0 == Keys(r)[i];
    assert forall i :: 0 <= i < |d| ==> d[i].0 == Keys(d)[i];
  }

  /** Every entry after `d[k] = v` is the new one or an entry that was there. */
  lemma {:induction false} PutEntries<K, V>(d: Dict<K, V>, k: K, v: V)
    ensures forall i :: 0 <= i < |Put(d, k, v)| ==> Put(d, k, v)[i] == (k, v) || Put(d, k, v)[i] in d
  {
    if d != [] && d[0].0 != k {
      PutEntries(d[1..], k, v);
      var r := Put(d, k, v);
      forall i | 0 <= i < |r| ensures r[i] == (k, v) || r[i] in d {
        if i > 0 {
          assert r[i] == Put(d[1..], k, v)[i - 1];
          if r[i] in d[1..] {
            var j :| 0 <= j < |d[1..]| && d[1..][j] == r[i];
            assert d[j + 1] == r[i];
          }
        }
      }
    }
  }

  /** Assigning to a new key appends it. */
  lemma {:induction false} PutAppend<K, V>(d: Dict<K, V>, k: K, v: V)
    requires k !in Keys(d)
    ensures Put(d, k, v) == d + [(k, v)]
  {
    if d != [] {
      assert Keys(d) == [d[0].0] + Keys(d[1..]);
      PutAppend(d[1..], k, v);
      assert [d[0]] + (d[1..] + [(k, v)]) == d + [(k, v)];
    }
  }

  /** After `d.update(e)`, a key of e carries its last value in e; other keys keep theirs. */
  lemma {:induction false} UpdateGet<K, V>(d: Dict<K, V>, e: Dict<K, V>, k: K)
    ensures Get(Update(d, e), k) == if GetLast(e, k).Some? then GetLast(e, k) else Get(d, k)
  {
    if e != [] {
      UpdateGet(d, e[..|e| - 1], k);
      PutGet(Update(d, e[..|e| - 1]), e[|e| - 1].0, e[|e| - 1].1, k);
    }
  }

  /** `d.update(e)` leaves no key twice when d had none twice. */
  lemma {:induction false} UpdateDistinct<K, V>(d: Dict<K, V>, e: Dict<K, V>)
    requires DistinctKeys(d)
    ensures DistinctKeys(Update(d, e))
  {
    if e != [] {
      UpdateDistinct(d, e[..|e| - 1]);
      PutDistinct(Update(d, e[..|e| - 1]), e[|e| - 1].0, e[|e| - 1].1);
    }
  }

  /** Without repeated keys, the last entry for a key is its only one. */
  lemma {:induction false} GetLastDistinct<K, V>(e: Dict<K, V>, k: K)
    requires DistinctKeys(e)
    ensures GetLast(e, k) == Get(e, k)
  {
    if e != [] {
      var n := |e| - 1;
      assert DistinctKeys(e[..n]) by {
        forall i, j | 0 <= i < j < n ensures e[..n][i].0 != e[..n][j].0 {
          assert e[..n][i] == e[i] && e[..n][j] == e[j];
        }
      }
      GetLastDistinct(e[..n], k);
      GetSome(e[..n], k);
      if e[n].0 == k {
        GetEntry(e, n);
      } else {
        GetAppend(e[..n], e[n], k);
        assert e[..n] + [e[n]] == e;
      }
    }
  }

  /** An entry appended under another key does not change what a key gives. */
  lemma {:induction false} GetAppend<K, V>(d: Dict<K, V>, x: (K, V), k: K)
    requires x.0 != k
    ensures Get(d + [x], k) == Get(d, k)
  {
    if d != [] {
      assert (d + [x])[1..] == d[1..] + [x];
      GetAppend(d[1..], x, k);
    }
  }
}
