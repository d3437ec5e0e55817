/**
 * Python dictionaries keep their keys in insertion order, and the agents rely
 * on that order (they zip dict values with query lists and return dicts whose
 * order is the ranking). A dict is therefore a sequence of (key, value) pairs
 * with distinct keys.
 */
module Dicts {
  import opened Wrappers

  /** No element occurs twice. */
  predicate Distinct<T(==)>(s: seq<T>) {
    forall i, j :: 0 <= i < j < |s| ==> s[i] != s[j]
  }

  function Keys<K, V>(d: seq<(K, V)>): (ks: seq<K>)
    ensures |ks| == |d|
    ensures forall i :: 0 <= i < |d| ==> ks[i] == d[i].0
  {
    seq(|d|, i requires 0 <= i < |d| => d[i].0)
  }

  function Values<K, V>(d: seq<(K, V)>): (vs: seq<V>)
    ensures |vs| == |d|
    ensures forall i :: 0 <= i < |d| ==> vs[i] == d[i].1
  {
    seq(|d|, i requires 0 <= i < |d| => d[i].1)
  }

  /** The keys of a dict are distinct. */
  predicate IsDict<K(==), V>(d: seq<(K, V)>) {
    Distinct(Keys(d))
  }

  /** `d.get(k)`: the value stored under `k`, if any. */
  function Get<K(==), V>(d: seq<(K, V)>, k: K): Option<V>
  {
    if d == [] then None
    else if d[0].0 == k then Some(d[0].1)
    else Get(d[1..], k)
  }

  /** A key is found exactly when it is one of the keys. */
  lemma {:induction false} GetKeys<K, V>(d: seq<(K, V)>, k: K)
    ensures Get(d, k).None? <==> k !in Keys(d)
    decreases |d|
  {
    if d != [] && d[0].0 != k {
      GetKeys(d[1..], k);
    }
  }

  /** A value found by `Get` is stored in an entry under that key. */
  lemma {:induction false} GetFound<K, V>(d: seq<(K, V)>, k: K)
    requires Get(d, k).Some?
    ensures exists i :: 0 <= i < |d| && d[i] == (k, Get(d, k).value)
    decreases |d|
  {
    if d[0].0 != k {
      GetFound(d[1..], k);
      var i :| 0 <= i < |d[1..]| && d[1..][i] == (k, Get(d[1..], k).value);
      assert d[i + 1] == d[1..][i];
    }
  }

  /** `d.get(k, default)`. */
  function GetOr<K(==), V>(d: seq<(K, V)>, k: K, default: V): V
  {
    match Get(d, k)
    case Some(v) => v
    case None => default
  }

  /**
   * `d[k] = v`: an existing key keeps its position and takes the new value;
   * a new key goes to the end.
   */
  function Put<K(==), V>(d: seq<(K, V)>, k: K, v: V): seq<(K, V)>
  {
    if d == [] then [(k, v)]
    else if d[0].0 == k then [(k, v)] + d[1..]
    else [d[0]] + Put(d[1..], k, v)
  }

  /** `d[k] = v` keeps the keys in place and appends a new key at the end. */
  lemma {:induction false} PutKeys<K, V>(d: seq<(K, V)>, k: K, v: V)
    ensures Keys(Put(d, k, v)) == if k in Keys(d) then Keys(d) else Keys(d) + [k]
    decreases |d|
  {
    if d == [] {
    } else if d[0].0 == k {
      assert Keys(Put(d, k, v)) == Keys(d);
    } else {
      PutKeys(d[1..], k, v);
      assert Keys(d) == [d[0].0] + Keys(d[1..]);
      assert Keys(Put(d, k, v)) == [d[0].0] + Keys(Put(d[1..], k, v));
    }
  }

  /** `d[k] = v` keeps the keys distinct. */
  lemma PutDict<K, V>(d: seq<(K, V)>, k: K, v: V)
    requires IsDict(d)
    ensures IsDict(Put(d, k, v))
  {
    PutKeys(d, k, v);
    var ks := Keys(d);
    if k !in ks {
      forall i, j | 0 <= i < j < |ks| + 1 ensures (ks + [k])[i] != (ks + [k])[j] {
        if j == |ks| {
          assert (ks + [k])[i] == ks[i];
        }
      }
    }
  }

  /** After `d[k] = v`, `k` holds `v`. */
  lemma {:induction false} GetPutSame<K, V>(d: seq<(K, V)>, k: K, v: V)
    ensures Get(Put(d, k, v), k) == Some(v)
    decreases |d|
  {
    if d != [] && d[0].0 != k {
      GetPutSame(d[1..], k, v);
    }
  }

  /** `d[k] = v` leaves every other key's value as it was. */
  lemma {:induction false} GetPutOther<K, V>(d: seq<(K, V)>, k: K, v: V, k': K)
    requires k' != k
    ensures Get(Put(d, k, v), k') == Get(d, k')
    decreases |d|
  {
    if d != [] && d[0].0 != k && d[0].0 != k' {
      GetPutOther(d[1..], k, v, k');
    }
  }

  /** `dict(pairs)` and `{k: v for k, v in pairs}`: later pairs overwrite earlier ones. */
  function FromPairs<K(==), V>(pairs: seq<(K, V)>): (d: seq<(K, V)>)
    ensures IsDict(d)
    ensures |d| <= |pairs|
    decreases |pairs|
  {
    if pairs == [] then []
    else
      var init := FromPairs(pairs[..|pairs| - 1]);
      var last := pairs[|pairs| - 1];
      PutDict(init, last.0, last.1);
      PutKeys(init, last.0, last.1);
      Put(init, last.0, last.1)
  }

  /** `dict(pairs)` lists each key once, in order of first appearance. */
  lemma {:induction false} FromPairsKeys<K, V>(pairs: seq<(K, V)>)
    ensures Keys(FromPairs(pairs)) == Dedup(Keys(pairs))
    decreases |pairs|
  {
    if pairs != [] {
      var n := |pairs| - 1;
      FromPairsKeys(pairs[..n]);
      KeysPrefix(pairs, n);
      PutKeys(FromPairs(pairs[..n]), pairs[n].0, pairs[n].1);
    }
  }

  /** A later `d[k] = v` overwrites an earlier one for the same key. */
  lemma {:induction false} PutPut<K, V>(d: seq<(K, V)>, k: K, v1: V, v2: V)
    ensures Put(Put(d, k, v1), k, v2) == Put(d, k, v2)
    decreases |d|
  {
    if d != [] && d[0].0 != k {
      PutPut(d[1..], k, v1, v2);
    }
  }

  /** In a dict, looking up the key of an entry finds that entry's value. */
  lemma {:induction false} GetMember<K, V>(d: seq<(K, V)>, i: nat)
    requires IsDict(d)
    requires i < |d|
    ensures Get(d, d[i].0) == Some(d[i].1)
    decreases |d|
  {
    if i > 0 {
      assert Keys(d)[0] != Keys(d)[i];
      assert IsDict(d[1..]) by {
        assert forall j :: 0 <= j < |d| - 1 ==> Keys(d[1..])[j] == Keys(d)[j + 1];
      }
      GetMember(d[1..], i - 1);
    }
  }

  /** The first occurrence of every element, in order of first appearance. */
  function Dedup<T(==)>(s: seq<T>): (r: seq<T>)
    ensures Distinct(r)
    ensures forall i :: 0 <= i < |s| ==> s[i] in r
    ensures forall i :: 0 <= i < |r| ==> r[i] in s
    decreases |s|
  {
    if s == [] then []
    else
      var p := Dedup(s[..|s| - 1]);
      if s[|s| - 1] in p then p else p + [s[|s| - 1]]
  }

  /** A sequence without duplicates has as many elements as its set. */
  lemma {:induction false} DistinctCard<T>(s: seq<T>)
    requires Distinct(s)
    ensures |set x | x in s| == |s|
    decreases |s|
  {
    if s != [] {
      var tail := s[1..];
      DistinctCard(tail);
      assert (set x | x in s) == {s[0]} + (set x | x in tail);
      assert s[0] !in (set x | x in tail);
    }
  }

  /** The keys of a prefix are the prefix of the keys. */
  lemma KeysPrefix<K, V>(d: seq<(K, V)>, n: nat)
    requires n <= |d|
    ensures Keys(d[..n]) == Keys(d)[..n]
  {
  }

  /** A key not yet present is appended with its value. */
  lemma {:induction false} PutNew<K, V>(d: seq<(K, V)>, k: K, v: V)
    requires k !in Keys(d)
    ensures Put(d, k, v) == d + [(k, v)]
    decreases |d|
  {
    if d != [] {
      assert Keys(d)[0] != k;
      assert Keys(d[1..]) == Keys(d)[1..];
      PutNew(d[1..], k, v);
      assert d == [d[0]] + d[1..];
    }
  }

  /**
   * The idiom `if k not in d: d[k] = default` followed by `d[k] = v`: the
   * default is then what `d[k]` reads, and the pair of writes is one write.
   */
  lemma SetDefaultThenPut<K, V>(d: seq<(K, V)>, k: K, default: V, v: V)
    ensures var d1 := if k in Keys(d) then d else Put(d, k, default);
      Get(d1, k) == Some(GetOr(d, k, default)) && Put(d1, k, v) == Put(d, k, v)
  {
    GetKeys(d, k);
    if k !in Keys(d) {
      GetPutSame(d, k, default);
      PutPut(d, k, default, v);
    } else {
      assert Get(d, k).Some?;
    }
  }

  /** Dropping the last element keeps a sequence distinct, and that element is not among the rest. */
  lemma DistinctInit<T>(s: seq<T>)
    requires Distinct(s)
    requires s != []
    ensures Distinct(s[..|s| - 1])
    ensures s[|s| - 1] !in s[..|s| - 1]
  {
    var n := |s| - 1;
    forall i | 0 <= i < n ensures s[..n][i] != s[n] {
      assert s[..n][i] == s[i];
    }
  }

  /** The last key of a non-empty dict is not among the keys before it. */
  lemma DictLast<K, V>(d: seq<(K, V)>)
    requires IsDict(d)
    requires d != []
    ensures IsDict(d[..|d| - 1])
    ensures Keys(d) == Keys(d[..|d| - 1]) + [d[|d| - 1].0]
    ensures d[|d| - 1].0 !in Keys(d[..|d| - 1])
  {
    var n := |d| - 1;
    var ks := Keys(d);
    KeysPrefix(d, n);
    DistinctInit(ks);
    assert ks == ks[..n] + [ks[n]];
  }

  /** A non-empty dict is its prefix with the last entry put back. */
  lemma DictLastPut<K, V>(d: seq<(K, V)>)
    requires IsDict(d)
    requires d != []
    ensures d == Put(d[..|d| - 1], d[|d| - 1].0, d[|d| - 1].1)
  {
    var n := |d| - 1;
    DictLast(d);
    PutNew(d[..n], d[n].0, d[n].1);
    assert d == d[..n] + [d[n]];
  }
}
