/** Generic facts about sequences used by the store operations. */
module Seqs {

  /** No two positions of `s` hold elements with the same key. */
  ghost predicate UniqueKeys<T, K>(s: seq<T>, key: T -> K) {
    forall i, j :: 0 <= i < j < |s| ==> key(s[i]) != key(s[j])
  }

  /** The elements of `s` whose key differs from `k`, in their original order. */
  function Without<T(==,!new), K(==)>(s: seq<T>, key: T -> K, k: K): (r: seq<T>)
    ensures |r| <= |s|
    ensures forall x :: x in r <==> x in s && key(x) != k
  {
    if |s| == 0 then []
    else (if key(s[0]) != k then [s[0]] else []) + Without(s[1..], key, k)
  }

  /** Dropping elements cannot create a duplicate key. */
  lemma {:induction false} WithoutKeepsKeysUnique<T(!new), K, L>(s: seq<T>, key: T -> K, k: K, other: T -> L)
    requires UniqueKeys(s, other)
    ensures UniqueKeys(Without(s, key, k), other)
  {
    if |s| > 0 {
      WithoutKeepsKeysUnique(s[1..], key, k, other);
      var rest := Without(s[1..], key, k);
      forall x | x in rest
        ensures other(x) != other(s[0])
      {
        var j :| 0 <= j < |s[1..]| && s[1..][j] == x;
        assert s[j + 1] == x;
      }
      var r := Without(s, key, k);
      if key(s[0]) != k {
        assert r == [s[0]] + rest;
        forall i, j | 0 <= i < j < |r|
          ensures other(r[i]) != other(r[j])
        {
          if i == 0 {
            assert r[j] == rest[j - 1];
            assert r[j] in rest;
          } else {
            assert r[i] == rest[i - 1] && r[j] == rest[j - 1];
          }
        }
      }
    }
  }

  /** The largest key in `s` (0 when `s` is empty). */
  function MaxKey<T>(s: seq<T>, key: T -> nat): (m: nat)
    ensures forall i :: 0 <= i < |s| ==> key(s[i]) <= m
    ensures |s| == 0 || exists i :: 0 <= i < |s| && key(s[i]) == m
  {
    if |s| == 0 then 0
    else
      var m := MaxKey(s[1..], key);
      assert forall i :: 1 <= i < |s| ==> s[i] == s[1..][i - 1];
      if key(s[0]) >= m then key(s[0])
      else
        assert |s[1..]| > 0;
        var j :| 0 <= j < |s[1..]| && key(s[1..][j]) == m;
        assert key(s[j + 1]) == m;
        m
  }
}
