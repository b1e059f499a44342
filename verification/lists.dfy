/**
 The list update every page uses after a successful delete or when hiding
 the current video: `list.filter(x => x._id !== id)`, for any way `key` of
 reading an entry's id.
 */
module Lists {

  /** Number of entries whose key is `id`. */
  function Count<T, K(==)>(s: seq<T>, key: T -> K, id: K): (n: nat)
    ensures n <= |s|
    decreases |s|
  {
    if |s| == 0 then 0 else (if key(s[0]) == id then 1 else 0) + Count(s[1..], key, id)
  }

  /** `s.filter(x => key(x) !== id)` */
  function Without<T, K(==)>(s: seq<T>, key: T -> K, id: K): (r: seq<T>)
    ensures |r| + Count(s, key, id) == |s|
    ensures forall x :: x in r ==> x in s && key(x) != id
    ensures forall i :: 0 <= i < |s| && key(s[i]) != id ==> s[i] in r
    decreases |s|
  {
    if |s| == 0 then []
    else (if key(s[0]) == id then [] else [s[0]]) + Without(s[1..], key, id)
  }

  /** `r` is `s` with some entries dropped and the rest in their original order. */
  ghost predicate Subsequence<T>(r: seq<T>, s: seq<T>)
    decreases |s|
  {
    if |r| == 0 then true
    else if |s| == 0 then false
    else if r[0] == s[0] then Subsequence(r[1..], s[1..])
    else Subsequence(r, s[1..])
  }

  /** A subsequence of `s` is a subsequence of `s` with one more entry in front. */
  lemma {:induction false} SubsequenceCons<T>(r: seq<T>, x: T, s: seq<T>)
    requires Subsequence(r, s)
    ensures Subsequence(r, [x] + s)
    decreases |s|, 1
  {
    assert ([x] + s)[1..] == s;
    if |r| > 0 && r[0] == x {
      SubsequenceDropFirst(r, s);
    }
  }

  /** Dropping the first entry of a subsequence keeps it a subsequence. */
  lemma {:induction false} SubsequenceDropFirst<T>(r: seq<T>, s: seq<T>)
    requires Subsequence(r, s)
    requires |r| > 0
    ensures Subsequence(r[1..], s)
    decreases |s|, 0
  {
    assert |s| > 0;
    assert [s[0]] + s[1..] == s;
    if r[0] == s[0] {
      SubsequenceCons(r[1..], s[0], s[1..]);
    } else {
      SubsequenceDropFirst(r, s[1..]);
      SubsequenceCons(r[1..], s[0], s[1..]);
    }
  }

  /** The filter keeps the surviving entries in their original order. */
  lemma {:induction false} WithoutIsSubsequence<T, K>(s: seq<T>, key: T -> K, id: K)
    ensures Subsequence(Without(s, key, id), s)
    decreases |s|
  {
    if |s| > 0 {
      var rest := Without(s[1..], key, id);
      WithoutIsSubsequence(s[1..], key, id);
      if key(s[0]) == id {
        assert Without(s, key, id) == rest;
        SubsequenceCons(rest, s[0], s[1..]);
        assert [s[0]] + s[1..] == s;
      } else {
        var r := Without(s, key, id);
        assert r == [s[0]] + rest;
        assert r[1..] == rest;
      }
    }
  }

  /** Removing an id twice is removing it once. */
  lemma {:induction false} WithoutIdempotent<T, K>(s: seq<T>, key: T -> K, id: K)
    ensures Without(Without(s, key, id), key, id) == Without(s, key, id)
    decreases |s|
  {
    if |s| > 0 {
      WithoutIdempotent(s[1..], key, id);
      var rest := Without(s[1..], key, id);
      if key(s[0]) == id {
        assert Without(s, key, id) == rest;
      } else {
        var r := [s[0]] + rest;
        assert Without(s, key, id) == r;
        assert r[1..] == rest;
        assert Without(r, key, id) == [s[0]] + Without(rest, key, id);
      }
    }
  }

  /** Removing an id that no entry carries changes nothing. */
  lemma {:induction false} WithoutAbsent<T, K>(s: seq<T>, key: T -> K, id: K)
    requires forall i :: 0 <= i < |s| ==> key(s[i]) != id
    ensures Without(s, key, id) == s
    decreases |s|
  {
    if |s| > 0 {
      WithoutAbsent(s[1..], key, id);
      assert [s[0]] + s[1..] == s;
    }
  }
}
