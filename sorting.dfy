/**
 * Python's `sorted(xs, key=key, reverse=True)`: a stable sort into
 * non-increasing key order. Elements with equal keys keep the order they had
 * in the input, which is what `reverse=True` promises as well.
 */
module Sorting {
  import opened Dicts

  predicate SortedDesc<T>(s: seq<T>, key: T -> real) {
    forall i, j :: 0 <= i < j < |s| ==> key(s[i]) >= key(s[j])
  }

  /** Where `x` goes in a sorted `s`: after every element with a strictly larger key. */
  function InsertPos<T>(x: T, s: seq<T>, key: T -> real): (m: nat)
    ensures m <= |s|
    ensures SortedDesc(s, key) ==> forall i :: 0 <= i < m ==> key(s[i]) > key(x)
    ensures m < |s| ==> key(s[m]) <= key(x)
  {
    if s == [] || key(s[0]) <= key(x) then 0 else 1 + InsertPos(x, s[1..], key)
  }

  /** `x` placed at its insertion point in `s`: after the leading elements with a larger key. */
  function Insert<T>(x: T, s: seq<T>, key: T -> real): (r: seq<T>)
    ensures |r| == |s| + 1
    decreases |s|
  {
    if s == [] || key(s[0]) <= key(x) then [x] + s else [s[0]] + Insert(x, s[1..], key)
  }

  /** Insertion adds exactly one element. */
  lemma {:induction false} InsertMultiset<T>(x: T, s: seq<T>, key: T -> real)
    ensures multiset(Insert(x, s, key)) == multiset(s) + multiset{x}
    decreases |s|
  {
    if s != [] && key(s[0]) > key(x) {
      InsertMultiset(x, s[1..], key);
      assert s == [s[0]] + s[1..];
    }
  }

  /** The elements before the insertion point stay, and the rest move up by one. */
  lemma {:induction false} InsertAt<T>(x: T, s: seq<T>, key: T -> real, i: nat)
    requires i < |s| + 1
    ensures Insert(x, s, key)[i] ==
      if i < InsertPos(x, s, key) then s[i] else if i == InsertPos(x, s, key) then x else s[i - 1]
    decreases |s|
  {
    if s != [] && key(s[0]) > key(x) && i > 0 {
      InsertAt(x, s[1..], key, i - 1);
    }
  }

  lemma InsertSorted<T>(x: T, s: seq<T>, key: T -> real)
    requires SortedDesc(s, key)
    ensures SortedDesc(Insert(x, s, key), key)
  {
    var r := Insert(x, s, key);
    var m := InsertPos(x, s, key);
    forall i, j | 0 <= i < j < |r| ensures key(r[i]) >= key(r[j]) {
      InsertAt(x, s, key, i);
      InsertAt(x, s, key, j);
      if i < m && j > m {
        assert key(s[i]) >= key(s[j - 1]);
      } else if i == m && j > m {
        assert key(s[m]) <= key(x);
        assert key(s[m]) >= key(s[j - 1]);
      }
    }
  }

  /** Insertion sort: each head element is inserted in front of the equal keys of the sorted rest. */
  function SortDesc<T>(s: seq<T>, key: T -> real): (r: seq<T>)
    ensures |r| == |s|
    ensures multiset(r) == multiset(s)
    ensures SortedDesc(r, key)
  {
    if s == [] then []
    else
      var t := SortDesc(s[1..], key);
      InsertSorted(s[0], t, key);
      InsertMultiset(s[0], t, key);
      assert s == [s[0]] + s[1..];
      Insert(s[0], t, key)
  }

  /** The elements of `s` whose key is `v`, in order. */
  function WithKey<T>(s: seq<T>, key: T -> real, v: real): (r: seq<T>)
    ensures |r| <= |s|
  {
    if s == [] then []
    else (if key(s[0]) == v then [s[0]] else []) + WithKey(s[1..], key, v)
  }

  /**
   * Inserting `x` adds it to the elements of its own key, in front of them:
   * it is placed after the elements with a strictly larger key only.
   */
  lemma {:induction false} WithKeyInsert<T>(x: T, t: seq<T>, key: T -> real, v: real)
    ensures WithKey(Insert(x, t, key), key, v) == (if key(x) == v then [x] else []) + WithKey(t, key, v)
    decreases |t|
  {
    if t == [] || key(t[0]) <= key(x) {
      assert ([x] + t)[1..] == t;
    } else {
      WithKeyInsert(x, t[1..], key, v);
      var r := [t[0]] + Insert(x, t[1..], key);
      assert r[1..] == Insert(x, t[1..], key);
    }
  }

  /** Stability: among equal keys, sorting keeps the input order. */
  lemma {:induction false} SortDescStable<T>(s: seq<T>, key: T -> real, v: real)
    ensures WithKey(SortDesc(s, key), key, v) == WithKey(s, key, v)
    decreases |s|
  {
    if s != [] {
      SortDescStable(s[1..], key, v);
      WithKeyInsert(s[0], SortDesc(s[1..], key), key, v);
    }
  }

  /** Sorting a sequence without duplicates yields one without duplicates. */
  lemma {:induction false} SortDescDistinct<T>(s: seq<T>, key: T -> real)
    requires Distinct(s)
    ensures Distinct(SortDesc(s, key))
    decreases |s|
  {
    if s != [] {
      var t := SortDesc(s[1..], key);
      SortDescDistinct(s[1..], key);
      assert s[0] !in multiset(s[1..]);
      assert s[0] !in t;
      var r := Insert(s[0], t, key);
      forall i, j | 0 <= i < j < |r| ensures r[i] != r[j] {
        InsertAt(s[0], t, key, i);
        InsertAt(s[0], t, key, j);
      }
    }
  }

  /** Sorting the entries of a dict yields a dict: no key is duplicated. */
  lemma {:induction false} SortDescKeysDistinct<K, V>(d: seq<(K, V)>, key: ((K, V)) -> real)
    requires IsDict(d)
    ensures IsDict(SortDesc(d, key))
    decreases |d|
  {
    if d != [] {
      var rest := d[1..];
      assert IsDict(rest) by {
        assert forall j :: 0 <= j < |rest| ==> Keys(rest)[j] == Keys(d)[j + 1];
      }
      SortDescKeysDistinct(rest, key);
      var t := SortDesc(rest, key);
      forall k | 0 <= k < |t| ensures t[k].0 != d[0].0 {
        assert t[k] in multiset(rest);
        var j :| 0 <= j < |rest| && rest[j] == t[k];
        assert Keys(d)[j + 1] == t[k].0;
      }
      var r := Insert(d[0], t, key);
      forall i, j | 0 <= i < j < |r| ensures Keys(r)[i] != Keys(r)[j] {
        InsertAt(d[0], t, key, i);
        InsertAt(d[0], t, key, j);
        var m := InsertPos(d[0], t, key);
        if i != m && j != m {
          var a := if i < m then i else i - 1;
          var b := if j < m then j else j - 1;
          assert Keys(t)[a] != Keys(t)[b];
        }
      }
    }
  }
}
