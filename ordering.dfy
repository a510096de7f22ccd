/** The default listing order of posts, specified by an insertion sort on values. */
module Ordering {
  import opened Models
  import opened Seqs

  /** Every post may be listed before every later one. */
  predicate Sorted(s: seq<Post>) {
    forall i, j :: 0 <= i < j < |s| ==> Precedes(s[i], s[j])
  }

  /** Places `x` into a sorted listing. */
  function Insert(x: Post, s: seq<Post>): (r: seq<Post>)
    requires Sorted(s)
    ensures Sorted(r)
    ensures multiset(r) == multiset(s) + multiset{x}
  {
    if s == [] then [x]
    else if Precedes(x, s[0]) then
      assert forall j :: 0 <= j < |s| ==> Precedes(x, s[j]);
      [x] + s
    else
      assert s == [s[0]] + s[1..];
      var rest := Insert(x, s[1..]);
      assert forall y :: y in multiset(rest) ==> y == x || y in s[1..];
      assert forall j :: 0 <= j < |rest| ==> Precedes(s[0], rest[j]) by {
        forall j | 0 <= j < |rest| ensures Precedes(s[0], rest[j]) {
          assert rest[j] in multiset(rest);
        }
      }
      [s[0]] + rest
  }

  /** The posts of `s` in the default order. */
  function Sort(s: seq<Post>): (r: seq<Post>)
    ensures Sorted(r)
    ensures multiset(r) == multiset(s)
  {
    if s == [] then []
    else
      assert s == [s[0]] + s[1..];
      Insert(s[0], Sort(s[1..]))
  }

  /**
   * The order is fixed: two sorted arrangements of the same posts with distinct ids are
   * the same sequence, so a listing does not depend on the order rows were stored in.
   */
  lemma {:induction false} SortedUnique(a: seq<Post>, b: seq<Post>)
    requires Sorted(a) && Sorted(b)
    requires multiset(a) == multiset(b)
    requires KeysDistinct(a, PostKey)
    ensures a == b
  {
    if a != [] {
      SortedHeadsEqual(a, b);
      TailsAgree(a, b);
      DistinctTail(a, PostKey);
      SortedUnique(a[1..], b[1..]);
    }
  }

  /** Removing the same first post from two arrangements of the same posts leaves sorted arrangements of the same posts. */
  lemma TailsAgree(a: seq<Post>, b: seq<Post>)
    requires Sorted(a) && Sorted(b)
    requires multiset(a) == multiset(b)
    requires a != [] && b != [] && a[0] == b[0]
    ensures Sorted(a[1..]) && Sorted(b[1..])
    ensures multiset(a[1..]) == multiset(b[1..])
  {
    assert a == [a[0]] + a[1..] && b == [b[0]] + b[1..];
    assert multiset(a[1..]) == multiset(a) - multiset{a[0]};
    assert multiset(b[1..]) == multiset(b) - multiset{b[0]};
  }

  /** Two sorted arrangements of the same posts with distinct ids start with the same post. */
  lemma SortedHeadsEqual(a: seq<Post>, b: seq<Post>)
    requires Sorted(a) && Sorted(b)
    requires multiset(a) == multiset(b)
    requires KeysDistinct(a, PostKey)
    requires a != []
    ensures b != [] && a[0] == b[0]
  {
    assert a[0] in multiset(b);
    var k :| 0 <= k < |b| && b[k] == a[0];
    assert b[0] in multiset(a);
    var m :| 0 <= m < |a| && a[m] == b[0];
    if k != 0 {
      assert Precedes(b[0], b[k]);
      assert m == 0 || Precedes(a[0], a[m]);
      assert PostKey(a[m]) == PostKey(a[0]);
      assert m == 0;
    }
  }

  /** Sorting is insensitive to the storage order of posts with distinct ids. */
  lemma SortDeterministic(a: seq<Post>, b: seq<Post>)
    requires multiset(a) == multiset(b)
    requires KeysDistinct(a, PostKey)
    ensures Sort(a) == Sort(b)
  {
    var sa := Sort(a);
    forall i, j | 0 <= i < j < |sa| ensures PostKey(sa[i]) != PostKey(sa[j]) {
      assert sa[i] in multiset(a) && sa[j] in multiset(a);
      var i' :| 0 <= i' < |a| && a[i'] == sa[i];
      var j' :| 0 <= j' < |a| && a[j'] == sa[j];
      if i' == j' {
        SortedSameTwice(sa, a, i, j);
      }
    }
    SortedUnique(sa, Sort(b));
  }

  /** A post occurring once in `a` cannot occupy two positions of a permutation of `a`. */
  lemma SortedSameTwice(sa: seq<Post>, a: seq<Post>, i: nat, j: nat)
    requires multiset(sa) == multiset(a)
    requires KeysDistinct(a, PostKey)
    requires i < j < |sa|
    ensures sa[i] != sa[j]
  {
    if sa[i] == sa[j] {
      var x := sa[i];
      assert sa == sa[..i] + [x] + sa[i + 1..j] + [x] + sa[j + 1..];
      assert multiset(sa)[x] >= 2;
      KeysDistinctOnce(a, x, PostKey);
    }
  }

  /** A post strictly newer than every other post of a listing is listed first. */
  lemma NewestFirst(s: seq<Post>, p: Post)
    requires p in s
    requires forall q :: q in s && q != p ==> q.pubDate < p.pubDate
    ensures Sort(s) != [] && Sort(s)[0] == p
  {
    var r := Sort(s);
    assert p in multiset(r);
    var j :| 0 <= j < |r| && r[j] == p;
    assert r[0] in multiset(s);
    if j != 0 {
      assert Precedes(r[0], r[j]);
    }
  }
}
