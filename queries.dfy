/**
 * Value-level queries over the tables: the `WHERE` conditions of the views, ordered
 * listings, lookups by key, and the follow-table effect of following and unfollowing.
 */
module Queries {
  import opened Wrappers
  import opened Models
  import opened Seqs
  import opened Ordering

  // Row conditions used by the views and by the cascading deletes.

  function AnyPost(): Post -> bool { (p: Post) => true }
  function InGroup(g: GroupId): Post -> bool { (p: Post) => p.group == Some(g) }
  function ByAuthor(u: UserId): Post -> bool { (p: Post) => p.author == u }
  function NotByAuthor(u: UserId): Post -> bool { (p: Post) => p.author != u }
  function ByAuthors(authors: set<UserId>): Post -> bool { (p: Post) => p.author in authors }
  function NotPost(id: PostId): Post -> bool { (p: Post) => p.id != id }
  function OnPost(id: PostId): Comment -> bool { (c: Comment) => c.post == Some(id) }
  function NotOnPost(id: PostId): Comment -> bool { (c: Comment) => c.post != Some(id) }
  function NotGroup(id: GroupId): Group -> bool { (g: Group) => g.id != id }
  function NotEdge(f: Follow): Follow -> bool { (e: Follow) => e != f }
  function NotTouching(u: UserId): Follow -> bool { (e: Follow) => e.user != u && e.author != u }

  /** The record set of a listing view: the posts satisfying `keep`, in the default order. */
  function Listing(posts: seq<Post>, keep: Post -> bool): (r: seq<Post>)
    ensures Sorted(r)
    ensures forall p :: p in r <==> p in posts && keep(p)
    ensures |r| == |Filter(posts, keep)|
  {
    var f := Filter(posts, keep);
    var r := Sort(f);
    assert forall p :: p in r <==> p in multiset(f);
    assert |r| == |multiset(r)| == |multiset(f)| == |f|;
    r
  }

  /** With unique post ids, an author's listing counts the distinct posts the author wrote. */
  lemma AuthorPostCount(posts: seq<Post>, u: UserId)
    requires KeysDistinct(posts, PostKey)
    ensures |Listing(posts, ByAuthor(u))| == |set p | p in posts && p.author == u|
  {
    var f := Filter(posts, ByAuthor(u));
    FilterKeysDistinct(posts, ByAuthor(u), PostKey);
    DistinctCard(f, PostKey);
    assert (set x | x in f) == (set p | p in posts && p.author == u);
  }

  /** The authors `u` follows. */
  function FollowedAuthors(follows: seq<Follow>, u: UserId): (authors: set<UserId>)
    ensures forall a :: a in authors <==> Follow(u, a) in follows
  {
    set f | f in follows && f.user == u :: f.author
  }

  /** The follow feed of `u`, before pagination: exactly the posts whose author `u` follows, newest first. */
  function Feed(posts: seq<Post>, follows: seq<Follow>, u: UserId): (r: seq<Post>)
    ensures Sorted(r)
    ensures forall p :: p in r <==> p in posts && Follow(u, p.author) in follows
    ensures |r| == |Filter(posts, ByAuthors(FollowedAuthors(follows, u)))|
  {
    Listing(posts, ByAuthors(FollowedAuthors(follows, u)))
  }

  /** The ids of the stored posts. */
  function PostIds(posts: seq<Post>): (ids: set<PostId>)
    ensures forall id :: id in ids <==> exists p :: p in posts && p.id == id
  {
    set p | p in posts :: p.id
  }

  /** The ids of the stored groups. */
  function GroupIds(groups: seq<Group>): (ids: set<GroupId>)
    ensures forall id :: id in ids <==> exists g :: g in groups && g.id == id
  {
    set g | g in groups :: g.id
  }

  /** Position of the post with id `id`, if there is one (a lookup that may end in "not found"). */
  function FindPost(posts: seq<Post>, id: PostId): (r: Option<nat>)
    ensures r.Some? ==> r.value < |posts| && posts[r.value].id == id
    ensures r.None? <==> forall p :: p in posts ==> p.id != id
  {
    if posts == [] then None
    else if posts[0].id == id then Some(0)
    else
      assert posts == [posts[0]] + posts[1..];
      match FindPost(posts[1..], id)
      case None => None
      case Some(k) => Some(k + 1)
  }

  /** The group with slug `slug`, if there is one. */
  function FindGroup(groups: seq<Group>, slug: string): (r: Option<Group>)
    ensures r.Some? ==> r.value in groups && r.value.slug == slug
    ensures r.None? <==> forall g :: g in groups ==> g.slug != slug
  {
    if groups == [] then None
    else if groups[0].slug == slug then Some(groups[0])
    else
      assert groups == [groups[0]] + groups[1..];
      FindGroup(groups[1..], slug)
  }

  /** With unique slugs, the lookup by slug finds the one group carrying it. */
  lemma FindGroupUnique(groups: seq<Group>, g: Group)
    requires KeysDistinct(groups, SlugKey)
    requires g in groups
    ensures FindGroup(groups, g.slug) == Some(g)
  {
    var r := FindGroup(groups, g.slug);
    var h := r.value;
    var i :| 0 <= i < |groups| && groups[i] == g;
    var j :| 0 <= j < |groups| && groups[j] == h;
    assert SlugKey(groups[i]) == SlugKey(groups[j]);
    assert i == j;
  }

  /** Get-or-create of a follow edge: the table is unchanged if the edge is stored, else it gains it. */
  function GetOrCreate(follows: seq<Follow>, f: Follow): (r: seq<Follow>)
    ensures f in r
    ensures forall e :: e in r <==> e in follows || e == f
    ensures |follows| <= |r| <= |follows| + 1
  {
    if f in follows then follows else follows + [f]
  }

  /** Getting an edge that was just got or created changes nothing: following twice is following once. */
  lemma GetOrCreateIdempotent(follows: seq<Follow>, f: Follow)
    ensures GetOrCreate(GetOrCreate(follows, f), f) == GetOrCreate(follows, f)
  {
  }

  /** Following an author whose edge is already stored leaves the follow table unchanged. */
  lemma GetOrCreateExisting(follows: seq<Follow>, f: Follow)
    requires f in follows
    ensures GetOrCreate(follows, f) == follows
  {
  }

  /** Get-or-create keeps the `(user, author)` uniqueness, and the edge is then stored exactly once. */
  lemma GetOrCreateUnique(follows: seq<Follow>, f: Follow)
    requires KeysDistinct(follows, EdgeKey)
    ensures KeysDistinct(GetOrCreate(follows, f), EdgeKey)
    ensures multiset(GetOrCreate(follows, f))[f] == 1
  {
    if f !in follows {
      AppendKeysDistinct(follows, f, EdgeKey);
    }
    KeysDistinctOnce(GetOrCreate(follows, f), f, EdgeKey);
  }

  /** The follow table after deleting the edge `f` wherever it is stored. */
  function Unfollowed(follows: seq<Follow>, f: Follow): (r: seq<Follow>)
    ensures f !in r
    ensures forall e :: e != f ==> (e in r <==> e in follows)
  {
    Filter(follows, NotEdge(f))
  }

  /** Unfollowing leaves every other edge stored exactly as often as before. */
  lemma UnfollowedOthers(follows: seq<Follow>, f: Follow, e: Follow)
    requires e != f
    ensures multiset(Unfollowed(follows, f))[e] == multiset(follows)[e]
  {
    FilterCount(follows, NotEdge(f), e);
  }

  /** Unfollowing an edge that is not stored leaves the table as it was. */
  lemma UnfollowAbsent(follows: seq<Follow>, f: Follow)
    requires f !in follows
    ensures Unfollowed(follows, f) == follows
  {
    FilterAll(follows, NotEdge(f));
  }

  /** Following a new author and then unfollowing them restores the table exactly. */
  lemma FollowThenUnfollow(follows: seq<Follow>, f: Follow)
    requires f !in follows
    ensures Unfollowed(GetOrCreate(follows, f), f) == follows
  {
    FilterAppend(follows, [f], NotEdge(f));
    FilterAll(follows, NotEdge(f));
  }
}
