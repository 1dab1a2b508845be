/**
 * Removal by key from a stored list, shared by the metadata store
 * (mobile/src/services/VideoMetadataService.ts) and the gallery store
 * (mobile/src/stores/galleryStore.ts), which both delete with `filter(x => x.id !== id)`.
 */
module KeyedLists {
  /** `s.filter(x => key(x) !== k)`: the elements whose key differs from `k`, in order. */
  function WithoutKey<T>(s: seq<T>, key: T -> string, k: string): (r: seq<T>)
    ensures |r| <= |s|
    ensures forall i :: 0 <= i < |r| ==> key(r[i]) != k
  {
    if s == [] then []
    else (if key(s[0]) != k then [s[0]] else []) + WithoutKey(s[1..], key, k)
  }

  /** The elements left are exactly those with another key. */
  lemma {:induction false} WithoutKeyMembers<T>(s: seq<T>, key: T -> string, k: string)
    ensures forall x :: x in WithoutKey(s, key, k) <==> x in s && key(x) != k
  {
    if s != [] {
      WithoutKeyMembers(s[1..], key, k);
      assert s == [s[0]] + s[1..];
    }
  }

  /** Every copy with the key is removed and every other element is kept as often as before. */
  lemma {:induction false} WithoutKeyCounts<T>(s: seq<T>, key: T -> string, k: string, x: T)
    ensures multiset(WithoutKey(s, key, k))[x] == if key(x) == k then 0 else multiset(s)[x]
  {
    if s != [] {
      var head, tail := s[0], s[1..];
      WithoutKeyCounts(tail, key, k, x);
      assert s == [head] + tail;
      assert multiset(s) == multiset{head} + multiset(tail);
      if key(head) == k {
        assert WithoutKey(s, key, k) == WithoutKey(tail, key, k);
      } else {
        assert WithoutKey(s, key, k) == [head] + WithoutKey(tail, key, k);
        assert multiset(WithoutKey(s, key, k)) == multiset{head} + multiset(WithoutKey(tail, key, k));
      }
    }
  }

  /** The order is kept: filtering a concatenation concatenates the filtered parts. */
  lemma {:induction false} WithoutKeyAppend<T>(a: seq<T>, b: seq<T>, key: T -> string, k: string)
    ensures WithoutKey(a + b, key, k) == WithoutKey(a, key, k) + WithoutKey(b, key, k)
  {
    if a != [] {
      WithoutKeyAppend(a[1..], b, key, k);
      assert (a + b)[0] == a[0];
      assert (a + b)[1..] == a[1..] + b;
    } else {
      assert a + b == b;
    }
  }

  /** A list without the key is left as it is. */
  lemma {:induction false} WithoutAbsentKey<T>(s: seq<T>, key: T -> string, k: string)
    requires forall i :: 0 <= i < |s| ==> key(s[i]) != k
    ensures WithoutKey(s, key, k) == s
  {
    if s != [] {
      WithoutAbsentKey(s[1..], key, k);
      assert s == [s[0]] + s[1..];
    }
  }

  /** Removing the same key twice is removing it once. */
  lemma WithoutKeyIdempotent<T>(s: seq<T>, key: T -> string, k: string)
    ensures WithoutKey(WithoutKey(s, key, k), key, k) == WithoutKey(s, key, k)
  {
    var r := WithoutKey(s, key, k);
    WithoutAbsentKey(r, key, k);
  }
}
