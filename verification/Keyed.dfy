/** Finite maps read off lists of records with distinct keys. */
module Keyed {
  import opened IntrusiveList

  ghost predicate Unique<T, K>(s: seq<T>, key: T -> K) {
    forall i, j :: 0 <= i < j < |s| ==> key(s[i]) != key(s[j])
  }

  function MapBy<T, K(==), V>(s: seq<T>, key: T -> K, value: T -> V): map<K, V> {
    if s == [] then map[]
    else MapBy(s[..|s| - 1], key, value)[key(s[|s| - 1]) := value(s[|s| - 1])]
  }

  lemma {:induction false} MapByConcat<T, K, V>(a: seq<T>, b: seq<T>, key: T -> K, value: T -> V)
    ensures MapBy(a + b, key, value) == MapBy(a, key, value) + MapBy(b, key, value)
  {
    if b == [] {
      assert a + b == a;
    } else {
      MapByConcat(a, b[..|b| - 1], key, value);
      assert (a + b)[..|a + b| - 1] == a + b[..|b| - 1];
    }
  }

  lemma {:induction false} MapByAbsent<T, K, V>(s: seq<T>, key: T -> K, value: T -> V, k: K)
    requires forall i :: 0 <= i < |s| ==> key(s[i]) != k
    ensures k !in MapBy(s, key, value)
  {
    if s != [] {
      MapByAbsent(s[..|s| - 1], key, value, k);
    }
  }

  lemma {:induction false} MapByPresent<T, K, V>(s: seq<T>, key: T -> K, value: T -> V, i: nat)
    requires i < |s|
    ensures key(s[i]) in MapBy(s, key, value)
    ensures Unique(s, key) ==> MapBy(s, key, value)[key(s[i])] == value(s[i])
  {
    if i < |s| - 1 {
      MapByPresent(s[..|s| - 1], key, value, i);
      assert s[..|s| - 1][i] == s[i];
    }
  }

  /** The record that carries a key of the map. */
  lemma {:induction false} MapByFind<T, K, V>(s: seq<T>, key: T -> K, value: T -> V, k: K) returns (i: nat)
    requires k in MapBy(s, key, value)
    ensures i < |s| && key(s[i]) == k
  {
    i := |s| - 1;
    if key(s[i]) != k {
      i := MapByFind(s[..|s| - 1], key, value, k);
    }
  }

  /** The list with record `k` singled out. */
  lemma MapBySplit<T, K, V>(s: seq<T>, key: T -> K, value: T -> V, k: nat)
    requires Unique(s, key) && k < |s|
    ensures var a, b := MapBy(s[..k], key, value), MapBy(s[k + 1..], key, value);
            && key(s[k]) !in a && key(s[k]) !in b
            && MapBy(s, key, value) == (a + b)[key(s[k]) := value(s[k])]
  {
    MapByAbsent(s[..k], key, value, key(s[k]));
    MapByAbsent(s[k + 1..], key, value, key(s[k]));
    MapByConcat(s[..k] + [s[k]], s[k + 1..], key, value);
    assert s == s[..k] + [s[k]] + s[k + 1..];
    assert (s[..k] + [s[k]])[..k] == s[..k];
  }

  lemma UniqueRemove<T, K>(s: seq<T>, key: T -> K, k: nat)
    requires Unique(s, key) && k < |s|
    ensures Unique(RemoveAt(s, k), key)
  {
    var r := RemoveAt(s, k);
    forall i, j | 0 <= i < j < |r|
      ensures key(r[i]) != key(r[j])
    {
      var i', j' := if i < k then i else i + 1, if j < k then j else j + 1;
      assert r[i] == s[i'] && r[j] == s[j'];
    }
  }

  lemma UniqueInsert<T, K>(s: seq<T>, key: T -> K, k: nat, x: T)
    requires Unique(s, key) && k <= |s|
    requires forall i :: 0 <= i < |s| ==> key(s[i]) != key(x)
    ensures Unique(InsertAt(s, k, x), key)
  {
    var r := InsertAt(s, k, x);
    forall i, j | 0 <= i < j < |r|
      ensures key(r[i]) != key(r[j])
    {
      assert i < k ==> r[i] == s[i];
      assert i > k ==> r[i] == s[i - 1];
      assert j < k ==> r[j] == s[j];
      assert j > k ==> r[j] == s[j - 1];
      assert r[k] == x;
    }
  }

  lemma MapByRemove<T, K, V>(s: seq<T>, key: T -> K, value: T -> V, k: nat)
    requires Unique(s, key) && k < |s|
    ensures Unique(RemoveAt(s, k), key)
    ensures MapBy(RemoveAt(s, k), key, value) == MapBy(s, key, value) - {key(s[k])}
  {
    assert MapBy(RemoveAt(s, k), key, value) == MapBy(s[..k], key, value) + MapBy(s[k + 1..], key, value) by {
      MapByConcat(s[..k], s[k + 1..], key, value);
    }
    MapBySplit(s, key, value, k);
    UpdateMinus(MapBy(s[..k], key, value) + MapBy(s[k + 1..], key, value), key(s[k]), value(s[k]));
    UniqueRemove(s, key, k);
  }

  lemma UpdateMinus<K, V>(m: map<K, V>, k: K, v: V)
    requires k !in m
    ensures m[k := v] - {k} == m
  {
  }

  lemma MapByUpdate<T, K, V>(s: seq<T>, key: T -> K, value: T -> V, k: nat, x: T)
    requires Unique(s, key) && k < |s| && key(x) == key(s[k])
    ensures Unique(s[k := x], key)
    ensures MapBy(s[k := x], key, value) == MapBy(s, key, value)[key(x) := value(x)]
  {
    MapBySplit(s, key, value, k);
    MapBySplit(s[k := x], key, value, k);
    assert s[k := x][..k] == s[..k] && s[k := x][k + 1..] == s[k + 1..];
  }

  lemma MapByInsert<T, K, V>(s: seq<T>, key: T -> K, value: T -> V, k: nat, x: T)
    requires Unique(s, key) && k <= |s| && key(x) !in MapBy(s, key, value)
    ensures Unique(InsertAt(s, k, x), key)
    ensures MapBy(InsertAt(s, k, x), key, value) == MapBy(s, key, value)[key(x) := value(x)]
  {
    forall i | 0 <= i < |s|
      ensures key(s[i]) != key(x)
    {
      MapByPresent(s, key, value, i);
    }
    UniqueInsert(s, key, k, x);
    var r := InsertAt(s, k, x);
    assert r[..k] == s[..k] && r[k + 1..] == s[k..] && r[k] == x;
    MapBySplit(r, key, value, k);
    assert s == s[..k] + s[k..];
    MapByConcat(s[..k], s[k..], key, value);
  }
}
