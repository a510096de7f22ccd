/** Generic facts about sequences used as database tables: filtering and key uniqueness. */
module Seqs {

  /** The elements of `s` that satisfy `keep`, in their original order (a `WHERE` clause). */
  function Filter<T(!new)>(s: seq<T>, keep: T -> bool): (r: seq<T>)
    ensures |r| <= |s|
    ensures forall x :: x in r <==> x in s && keep(x)
  {
    if s == [] then []
    else
      assert s == [s[0]] + s[1..];
      if keep(s[0]) then [s[0]] + Filter(s[1..], keep) else Filter(s[1..], keep)
  }

  /** A kept row occurs in the result as often as in `s`; a dropped row does not occur. */
  lemma {:induction false} FilterCount<T(!new)>(s: seq<T>, keep: T -> bool, x: T)
    ensures multiset(Filter(s, keep))[x] == if keep(x) then multiset(s)[x] else 0
  {
    if s != [] {
      assert s == [s[0]] + s[1..];
      FilterCount(s[1..], keep, x);
    }
  }

  /** No two rows of `s` share a key: the table's unique constraint on `key`. */
  predicate KeysDistinct<T, K(==)>(s: seq<T>, key: T -> K) {
    forall i, j :: 0 <= i < j < |s| ==> key(s[i]) != key(s[j])
  }

  /** Filtering keeps every row whose key is kept, so nothing is dropped when all rows pass. */
  lemma {:induction false} FilterAll<T(!new)>(s: seq<T>, keep: T -> bool)
    requires forall x :: x in s ==> keep(x)
    ensures Filter(s, keep) == s
  {
    if s != [] {
      FilterAll(s[1..], keep);
    }
  }

  /** Filtering distributes over concatenation. */
  lemma {:induction false} FilterAppend<T(!new)>(a: seq<T>, b: seq<T>, keep: T -> bool)
    ensures Filter(a + b, keep) == Filter(a, keep) + Filter(b, keep)
  {
    if a == [] {
      assert a + b == b;
    } else {
      assert (a + b)[1..] == a[1..] + b;
      FilterAppend(a[1..], b, keep);
    }
  }

  /** Deleting rows never breaks a uniqueness constraint. */
  lemma {:induction false} FilterKeysDistinct<T(!new), K>(s: seq<T>, keep: T -> bool, key: T -> K)
    requires KeysDistinct(s, key)
    ensures KeysDistinct(Filter(s, keep), key)
  {
    if s != [] {
      DistinctTail(s, key);
      FilterKeysDistinct(s[1..], keep, key);
      if keep(s[0]) {
        DistinctCons(s[0], Filter(s[1..], keep), key);
      }
    }
  }

  /** The rows after the first keep the constraint, and none of them shares the first row's key. */
  lemma DistinctTail<T, K>(s: seq<T>, key: T -> K)
    requires KeysDistinct(s, key) && s != []
    ensures KeysDistinct(s[1..], key)
    ensures forall y :: y in s[1..] ==> key(y) != key(s[0])
  {
    var tail := s[1..];
    forall i, j | 0 <= i < j < |tail| ensures key(tail[i]) != key(tail[j]) {
      assert tail[i] == s[i + 1] && tail[j] == s[j + 1];
    }
    forall y | y in tail ensures key(y) != key(s[0]) {
      var j :| 0 <= j < |tail| && tail[j] == y;
      assert s[j + 1] == y;
    }
  }

  /** Putting a row with a fresh key in front keeps the constraint. */
  lemma DistinctCons<T, K>(x: T, f: seq<T>, key: T -> K)
    requires KeysDistinct(f, key)
    requires forall y :: y in f ==> key(y) != key(x)
    ensures KeysDistinct([x] + f, key)
  {
    var r := [x] + f;
    forall i, j | 0 <= i < j < |r| ensures key(r[i]) != key(r[j]) {
      assert r[j] == f[j - 1] && r[j] in f;
      if i > 0 {
        assert r[i] == f[i - 1];
      }
    }
  }

  /** Under a uniqueness constraint the table has as many rows as distinct rows. */
  lemma {:induction false} DistinctCard<T, K>(s: seq<T>, key: T -> K)
    requires KeysDistinct(s, key)
    ensures |set x | x in s| == |s|
  {
    if s != [] {
      DistinctTail(s, key);
      DistinctCard(s[1..], key);
      assert s == [s[0]] + s[1..];
      assert (set x | x in s) == {s[0]} + (set x | x in s[1..]);
      assert s[0] !in (set x | x in s[1..]);
    }
  }

  /** Appending a row keeps a uniqueness constraint exactly when its key is new. */
  lemma AppendKeysDistinct<T, K>(s: seq<T>, x: T, key: T -> K)
    requires KeysDistinct(s, key)
    requires forall y :: y in s ==> key(y) != key(x)
    ensures KeysDistinct(s + [x], key)
  {
    var r := s + [x];
    forall i, j | 0 <= i < j < |r| ensures key(r[i]) != key(r[j]) {
      if j == |s| {
        assert r[i] == s[i] && s[i] in s;
      } else {
        assert r[i] == s[i] && r[j] == s[j];
      }
    }
  }

  /** Under a uniqueness constraint a present row occurs exactly once. */
  lemma {:induction false} KeysDistinctOnce<T, K>(s: seq<T>, x: T, key: T -> K)
    requires KeysDistinct(s, key)
    requires x in s
    ensures multiset(s)[x] == 1
  {
    assert s == [s[0]] + s[1..];
    var tail := s[1..];
    DistinctTail(s, key);
    if s[0] == x {
      assert x !in tail;
      assert multiset(tail)[x] == 0;
    } else {
      KeysDistinctOnce(tail, x, key);
    }
  }
}
