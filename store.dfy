/**
 * The posts application's store and its request handlers. The tables are fields of
 * `Store`; the read views are functions of them, the handlers that write are methods
 * that state the new contents of the tables they change. The caller is the session's
 * user, `None` for an anonymous visitor.
 */
module Store {
  import opened Wrappers
  import opened Models
  import opened Seqs
  import opened Ordering
  import opened Queries
  import opened Paging

  /** The HTTP method of a request to a form view. */
  datatype Method = GET | POST

  /** The submitted fields of the post form. */
  datatype PostForm = PostForm(text: string, group: Option<GroupId>)

  /** What a writing handler answers with. */
  datatype Response =
    | LoginRedirect              // anonymous caller of a view that needs a login
    | NotFound                   // the post or user named in the URL does not exist
    | ToProfile(username: UserId)
    | ToPostDetail(postId: PostId)
    | ShowForm                   // the form page is rendered (first visit or invalid input)
    | ServerError                // the edit form was saved with invalid data

  /** Why a read view shows no page. */
  datatype Failure = PageNotFound | LoginRequired

  datatype GroupView = GroupView(group: Group, page: seq<Post>)
  datatype ProfileView = ProfileView(author: UserId, page: seq<Post>, count: nat, following: bool)
  datatype DetailView = DetailView(post: Post, authorPostCount: nat, comments: seq<Comment>)

  /** The post form accepts a non-blank text and, if a group is chosen, a stored group. */
  predicate PostFormValid(form: PostForm, groups: seq<Group>) {
    !Blank(form.text) && (form.group.Some? ==> form.group.value in GroupIds(groups))
  }

  /** The comment form accepts submitted, non-blank text. */
  predicate CommentFormValid(data: Option<string>) {
    data.Some? && !Blank(data.value)
  }

  /** Ids of the posts `u` wrote: the posts a deletion of `u` cascades to. */
  function PostIdsBy(posts: seq<Post>, u: UserId): (ids: set<PostId>)
    ensures forall id :: id in ids <==> exists p :: p in posts && p.author == u && p.id == id
  {
    set p | p in posts && p.author == u :: p.id
  }

  /** A comment survives deleting `u` unless `u` wrote it or wrote its post (whose ids are `gone`). */
  function CommentSurvives(u: UserId, gone: set<PostId>): Comment -> bool {
    (c: Comment) => c.author != u && (c.post.None? || c.post.value !in gone)
  }

  /** The post after deleting group `g`: its group reference is set to null. */
  function Ungrouped(p: Post, g: GroupId): (q: Post)
    ensures q.id == p.id && q.author == p.author && q.text == p.text && q.pubDate == p.pubDate
    ensures q.group == if p.group == Some(g) then None else p.group
  {
    if p.group == Some(g) then p.(group := None) else p
  }

  /** The posts table after deleting group `g`. */
  function UngroupAll(posts: seq<Post>, g: GroupId): (r: seq<Post>)
    ensures |r| == |posts|
    ensures forall i :: 0 <= i < |r| ==> r[i] == Ungrouped(posts[i], g)
  {
    seq(|posts|, i requires 0 <= i < |posts| => Ungrouped(posts[i], g))
  }

  // The schema's constraints, one table at a time.

  /** Group ids and slugs are unique; ids come from the counter. */
  predicate GroupsOk(groups: seq<Group>, nextGroupId: nat)
  {
    && KeysDistinct(groups, GroupKey)
    && KeysDistinct(groups, SlugKey)
    && forall g :: g in groups ==> g.id < nextGroupId
  }

  /** Post ids are unique; every post's author exists and its group, if any, exists. */
  predicate PostsOk(posts: seq<Post>, users: set<UserId>, groupIds: set<GroupId>, nextPostId: nat, clock: nat)
  {
    && KeysDistinct(posts, PostKey)
    && forall p :: p in posts ==>
        && p.id < nextPostId && p.pubDate < clock && p.author in users
        && (p.group.Some? ==> p.group.value in groupIds)
  }

  /** Comment ids are unique; every comment's author exists and its post, if any, exists. */
  predicate CommentsOk(comments: seq<Comment>, users: set<UserId>, postIds: set<PostId>, nextCommentId: nat, clock: nat)
  {
    && KeysDistinct(comments, CommentKey)
    && forall c :: c in comments ==>
        && c.id < nextCommentId && c.pubDate < clock && c.author in users
        && (c.post.Some? ==> c.post.value in postIds)
  }

  /** At most one edge per `(user, author)` pair; both ends exist. */
  predicate FollowsOk(follows: seq<Follow>, users: set<UserId>)
  {
    && KeysDistinct(follows, EdgeKey)
    && forall f :: f in follows ==> f.user in users && f.author in users
  }

  /** Under the groups table's constraints no two distinct groups share an id or a slug. */
  lemma GroupsUnique(groups: seq<Group>, nextGroupId: nat)
    requires GroupsOk(groups, nextGroupId)
    ensures forall g, h :: g in groups && h in groups && g.slug == h.slug ==> g == h
    ensures forall g, h :: g in groups && h in groups && g.id == h.id ==> g == h
  {
  }

  /** Under the posts table's constraints a post id identifies one post. */
  lemma PostsUnique(posts: seq<Post>, users: set<UserId>, groupIds: set<GroupId>, nextPostId: nat, clock: nat)
    requires PostsOk(posts, users, groupIds, nextPostId, clock)
    ensures forall p, q :: p in posts && q in posts && p.id == q.id ==> p == q
  {
  }

  /** Under the comments table's constraints a comment id identifies one comment. */
  lemma CommentsUnique(comments: seq<Comment>, users: set<UserId>, postIds: set<PostId>, nextCommentId: nat, clock: nat)
    requires CommentsOk(comments, users, postIds, nextCommentId, clock)
    ensures forall c, d :: c in comments && d in comments && c.id == d.id ==> c == d
  {
  }

  /** Under the follows table's constraints a `(user, author)` pair is stored at most once. */
  lemma FollowsUnique(follows: seq<Follow>, users: set<UserId>)
    requires FollowsOk(follows, users)
    ensures forall e, f :: e in follows && f in follows && e.user == f.user && e.author == f.author ==> e == f
    ensures forall e :: e in follows ==> multiset(follows)[e] == 1
  {
    forall e | e in follows
      ensures multiset(follows)[e] == 1
    {
      KeysDistinctOnce(follows, e, EdgeKey);
    }
  }

  /** A post with a fresh id, dated now, by an existing user, in an existing group, keeps the posts table valid. */
  lemma PostsOkAppend(posts: seq<Post>, users: set<UserId>, groupIds: set<GroupId>, nextPostId: nat, clock: nat, p: Post)
    requires PostsOk(posts, users, groupIds, nextPostId, clock)
    requires p.id == nextPostId && p.pubDate == clock && p.author in users
    requires p.group.Some? ==> p.group.value in groupIds
    ensures PostsOk(posts + [p], users, groupIds, nextPostId + 1, clock + 1)
  {
    AppendKeysDistinct(posts, p, PostKey);
  }

  /** The comments table stays valid when posts, users or the clock only grow. */
  lemma CommentsOkGrow(comments: seq<Comment>, users: set<UserId>, postIds: set<PostId>, postIds': set<PostId>, nextCommentId: nat, clock: nat, clock': nat)
    requires CommentsOk(comments, users, postIds, nextCommentId, clock)
    requires postIds <= postIds' && clock <= clock'
    ensures CommentsOk(comments, users, postIds', nextCommentId, clock')
  {
  }

  /** Replacing a post's text and group by an existing group keeps the posts table valid and its ids. */
  lemma PostsOkEdit(posts: seq<Post>, users: set<UserId>, groupIds: set<GroupId>, nextPostId: nat, clock: nat,
                    k: nat, text: string, group: Option<GroupId>)
    requires PostsOk(posts, users, groupIds, nextPostId, clock)
    requires k < |posts|
    requires group.Some? ==> group.value in groupIds
    ensures PostsOk(posts[k := posts[k].(text := text, group := group)], users, groupIds, nextPostId, clock)
    ensures PostIds(posts[k := posts[k].(text := text, group := group)]) == PostIds(posts)
  {
    var edited := posts[k := posts[k].(text := text, group := group)];
    forall i, j | 0 <= i < j < |edited| ensures PostKey(edited[i]) != PostKey(edited[j]) {
      assert PostKey(edited[i]) == PostKey(posts[i]) && PostKey(edited[j]) == PostKey(posts[j]);
    }
    forall id | id in PostIds(posts) ensures id in PostIds(edited) {
      var x :| x in posts && x.id == id;
      var i :| 0 <= i < |posts| && posts[i] == x;
      assert edited[i].id == id;
    }
  }

  /** Deleting group `g` keeps the groups and posts tables valid and keeps every post id. */
  lemma GroupDeletedOk(groups: seq<Group>, nextGroupId: nat, posts: seq<Post>, users: set<UserId>,
                       nextPostId: nat, clock: nat, g: GroupId)
    requires GroupsOk(groups, nextGroupId)
    requires PostsOk(posts, users, GroupIds(groups), nextPostId, clock)
    ensures GroupsOk(Filter(groups, NotGroup(g)), nextGroupId)
    ensures PostsOk(UngroupAll(posts, g), users, GroupIds(Filter(groups, NotGroup(g))), nextPostId, clock)
    ensures PostIds(UngroupAll(posts, g)) == PostIds(posts)
  {
    FilterKeysDistinct(groups, NotGroup(g), GroupKey);
    FilterKeysDistinct(groups, NotGroup(g), SlugKey);
    var kept := UngroupAll(posts, g);
    var keptGroups := Filter(groups, NotGroup(g));
    forall i, j | 0 <= i < j < |kept| ensures PostKey(kept[i]) != PostKey(kept[j]) {
      assert PostKey(kept[i]) == PostKey(posts[i]) && PostKey(kept[j]) == PostKey(posts[j]);
    }
    forall p | p in kept && p.group.Some? ensures p.group.value in GroupIds(keptGroups) {
      var i :| 0 <= i < |kept| && kept[i] == p;
      var h :| h in groups && h.id == p.group.value;
      assert h in keptGroups;
    }
    forall id | id in PostIds(posts) ensures id in PostIds(kept) {
      var x :| x in posts && x.id == id;
      var i :| 0 <= i < |posts| && posts[i] == x;
      assert kept[i].id == id;
    }
  }

  /** The posts table stays valid when the clock advances. */
  lemma PostsOkLater(posts: seq<Post>, users: set<UserId>, groupIds: set<GroupId>, nextPostId: nat, clock: nat)
    requires PostsOk(posts, users, groupIds, nextPostId, clock)
    ensures PostsOk(posts, users, groupIds, nextPostId, clock + 1)
  {
  }

  /** A post dated after every stored post heads the home page listing once it is stored. */
  lemma NewPostListedFirst(posts: seq<Post>, p: Post)
    requires forall q :: q in posts ==> q.pubDate < p.pubDate
    ensures Listing(posts + [p], AnyPost()) != []
    ensures Listing(posts + [p], AnyPost())[0] == p
  {
    var s := posts + [p];
    FilterAll(s, AnyPost());
    NewestFirst(s, p);
  }

  /**
   * Publishing `p` with the next id, dated now, keeps the posts and comments tables valid,
   * uses an id no stored post has, and puts `p` at the head of the index listing.
   */
  lemma PostPublishedOk(posts: seq<Post>, comments: seq<Comment>, users: set<UserId>, groupIds: set<GroupId>,
                        nextPostId: nat, nextCommentId: nat, clock: nat, p: Post)
    requires PostsOk(posts, users, groupIds, nextPostId, clock)
    requires CommentsOk(comments, users, PostIds(posts), nextCommentId, clock)
    requires p.id == nextPostId && p.pubDate == clock && p.author in users
    requires p.group.Some? ==> p.group.value in groupIds
    ensures PostsOk(posts + [p], users, groupIds, nextPostId + 1, clock + 1)
    ensures CommentsOk(comments, users, PostIds(posts + [p]), nextCommentId, clock + 1)
    ensures nextPostId !in PostIds(posts)
    ensures Listing(posts + [p], AnyPost()) != [] && Listing(posts + [p], AnyPost())[0] == p
  {
    PostsOkAppend(posts, users, groupIds, nextPostId, clock, p);
    assert PostIds(posts) <= PostIds(posts + [p]);
    CommentsOkGrow(comments, users, PostIds(posts), PostIds(posts + [p]), nextCommentId, clock, clock + 1);
    NewPostListedFirst(posts, p);
  }

  /** A post newer than every other, by an author `u` follows, heads the first page of `u`'s feed. */
  lemma FollowedNewPostShown(posts: seq<Post>, follows: seq<Follow>, u: UserId, p: Post)
    requires p in posts && Follow(u, p.author) in follows
    requires forall q :: q in posts && q != p ==> q.pubDate < p.pubDate
    ensures GetPage(Feed(posts, follows, u), None) != []
    ensures GetPage(Feed(posts, follows, u), None)[0] == p
  {
    var kept := Filter(posts, ByAuthors(FollowedAuthors(follows, u)));
    assert p in kept;
    NewestFirst(kept, p);
  }

  /** The posts table after a user's deletion keeps its constraints without that user. */
  lemma PostsOkAfterUserDeleted(posts: seq<Post>, users: set<UserId>, groupIds: set<GroupId>, nextPostId: nat, clock: nat, u: UserId)
    requires PostsOk(posts, users, groupIds, nextPostId, clock)
    ensures PostsOk(Filter(posts, NotByAuthor(u)), users - {u}, groupIds, nextPostId, clock)
  {
    FilterKeysDistinct(posts, NotByAuthor(u), PostKey);
  }

  /** The comments table after a user's deletion keeps its constraints without that user and their posts. */
  lemma CommentsOkAfterUserDeleted(comments: seq<Comment>, posts: seq<Post>, users: set<UserId>, nextCommentId: nat, clock: nat, u: UserId)
    requires CommentsOk(comments, users, PostIds(posts), nextCommentId, clock)
    ensures CommentsOk(Filter(comments, CommentSurvives(u, PostIdsBy(posts, u))), users - {u},
                       PostIds(Filter(posts, NotByAuthor(u))), nextCommentId, clock)
  {
    var gone := PostIdsBy(posts, u);
    var keptPosts := Filter(posts, NotByAuthor(u));
    var kept := Filter(comments, CommentSurvives(u, gone));
    FilterKeysDistinct(comments, CommentSurvives(u, gone), CommentKey);
    forall c | c in kept && c.post.Some?
      ensures c.post.value in PostIds(keptPosts)
    {
      var p :| p in posts && p.id == c.post.value;
      assert p.author != u;
      assert p in keptPosts;
    }
  }

  /** The follow table after a user's deletion keeps its constraints without that user. */
  lemma FollowsOkAfterUserDeleted(follows: seq<Follow>, users: set<UserId>, u: UserId)
    requires FollowsOk(follows, users)
    ensures FollowsOk(Filter(follows, NotTouching(u)), users - {u})
  {
    FilterKeysDistinct(follows, NotTouching(u), EdgeKey);
  }

  class Store {
    var users: set<UserId>
    var groups: seq<Group>
    var posts: seq<Post>
    var comments: seq<Comment>
    var follows: seq<Follow>
    var nextGroupId: nat
    var nextPostId: nat
    var nextCommentId: nat
    /** The publication clock: every post and comment is dated before it. */
    var clock: nat

    ghost predicate Valid()
      reads this
    {
      && GroupsOk(groups, nextGroupId)
      && PostsOk(posts, users, GroupIds(groups), nextPostId, clock)
      && CommentsOk(comments, users, PostIds(posts), nextCommentId, clock)
      && FollowsOk(follows, users)
    }

    /**
     * What a valid store guarantees: every reference names an existing row, group slugs
     * and follow pairs are unique, and each follow edge is stored exactly once.
     */
    lemma ValidReferences()
      requires Valid()
      ensures forall p :: p in posts ==> p.author in users && (p.group.Some? ==> p.group.value in GroupIds(groups))
      ensures forall c :: c in comments ==> c.author in users && (c.post.Some? ==> c.post.value in PostIds(posts))
      ensures forall f :: f in follows ==> f.user in users && f.author in users
      ensures forall g, h :: g in groups && h in groups && g.slug == h.slug ==> g == h
      ensures forall e :: e in follows ==> multiset(follows)[e] == 1
    {
      GroupsUnique(groups, nextGroupId);
      FollowsUnique(follows, users);
    }

    constructor ()
      ensures Valid()
      ensures users == {} && groups == [] && posts == [] && comments == [] && follows == []
      ensures nextGroupId == 0 && nextPostId == 0 && nextCommentId == 0 && clock == 0
    {
      users, groups, posts, comments, follows := {}, [], [], [], [];
      nextGroupId, nextPostId, nextCommentId, clock := 0, 0, 0, 0;
    }

    /** Registers a user; a taken username is refused. */
    method AddUser(u: UserId) returns (ok: bool)
      requires Valid()
      modifies this`users
      ensures Valid()
      ensures ok == (u !in old(users))
      ensures users == old(users) + {u}
    {
      ok := u !in users;
      users := users + {u};
    }

    /** Creates a group; a slug that is already taken is refused and nothing changes. */
    method AddGroup(title: string, slug: string, description: string) returns (r: Option<GroupId>)
      requires Valid()
      modifies this`groups, this`nextGroupId
      ensures Valid()
      ensures r.None? <==> exists g :: g in old(groups) && g.slug == slug
      ensures r.None? ==> groups == old(groups) && nextGroupId == old(nextGroupId)
      ensures r.Some? ==> r.value !in GroupIds(old(groups))
      ensures r.Some? ==> groups == old(groups) + [Group(r.value, title, slug, description)]
      ensures r.Some? ==> r.value == old(nextGroupId) && nextGroupId == old(nextGroupId) + 1
    {
      if FindGroup(groups, slug).Some? {
        return None;
      }
      var g := Group(nextGroupId, title, slug, description);
      AppendKeysDistinct(groups, g, GroupKey);
      AppendKeysDistinct(groups, g, SlugKey);
      groups := groups + [g];
      nextGroupId := nextGroupId + 1;
      r := Some(g.id);
    }

    // ----- Read views -----

    /** The home page: page `page` of all posts. */
    function Index(page: Option<int>): (r: seq<Post>)
      reads this
      ensures |r| <= PostsCount
      ensures |posts| > 0 ==> |r| > 0
      ensures Sorted(r)
      ensures forall i :: 0 <= i < |r| ==> r[i] in posts
      ensures r == GetPage(Listing(posts, AnyPost()), page)
    {
      GetPage(Listing(posts, AnyPost()), page)
    }

    /** A group's page: not found for an unknown slug, else a page of the group's posts. */
    function GroupPosts(slug: string, page: Option<int>): (r: Result<GroupView, Failure>)
      reads this
      ensures r.Err? <==> forall g :: g in groups ==> g.slug != slug
      ensures r.Err? ==> r.error == PageNotFound
      ensures r.Ok? ==> r.value.group in groups && r.value.group.slug == slug
      ensures r.Ok? ==> |r.value.page| <= PostsCount && Sorted(r.value.page)
      ensures r.Ok? ==> forall i :: 0 <= i < |r.value.page| ==>
        r.value.page[i] in posts && r.value.page[i].group == Some(r.value.group.id)
      ensures r.Ok? ==> r.value.page == GetPage(Listing(posts, InGroup(r.value.group.id)), page)
    {
      match FindGroup(groups, slug)
      case None => Err(PageNotFound)
      case Some(g) => Ok(GroupView(g, GetPage(Listing(posts, InGroup(g.id)), page)))
    }

    /**
     * An author's profile: not found for an unknown user, else a page of the author's posts,
     * how many posts the author has, and whether the caller follows the author.
     */
    function Profile(caller: Option<UserId>, username: UserId, page: Option<int>): (r: Result<ProfileView, Failure>)
      reads this
      ensures r.Err? <==> username !in users
      ensures r.Err? ==> r.error == PageNotFound
      ensures r.Ok? ==> r.value.author == username
      ensures r.Ok? ==> r.value.count == |Listing(posts, ByAuthor(username))|
      ensures r.Ok? ==> (r.value.following <==> caller.Some? && Follow(caller.value, username) in follows)
      ensures r.Ok? ==> |r.value.page| <= PostsCount && Sorted(r.value.page)
      ensures r.Ok? ==> forall i :: 0 <= i < |r.value.page| ==>
        r.value.page[i] in posts && r.value.page[i].author == username
      ensures r.Ok? ==> r.value.page == GetPage(Listing(posts, ByAuthor(username)), page)
    {
      if username !in users then Err(PageNotFound)
      else
        var listing := Listing(posts, ByAuthor(username));
        var following := match caller
          case None => false
          case Some(u) => Follow(u, username) in follows;
        Ok(ProfileView(username, GetPage(listing, page), |listing|, following))
    }

    /** A post's page: the post, how many posts its author has, and all its comments. */
    function PostDetail(postId: PostId): (r: Result<DetailView, Failure>)
      reads this
      ensures r.Err? <==> forall p :: p in posts ==> p.id != postId
      ensures r.Err? ==> r.error == PageNotFound
      ensures r.Ok? ==> r.value.post in posts && r.value.post.id == postId
      ensures r.Ok? ==> r.value.authorPostCount == |Listing(posts, ByAuthor(r.value.post.author))|
      ensures r.Ok? ==> forall c :: c in r.value.comments <==> c in comments && c.post == Some(postId)
      ensures r.Ok? ==> |r.value.comments| == |Filter(comments, OnPost(postId))|
      ensures r.Ok? ==> forall c :: multiset(r.value.comments)[c] == if c.post == Some(postId) then multiset(comments)[c] else 0
    {
      match FindPost(posts, postId)
      case None => Err(PageNotFound)
      case Some(k) =>
        var p := posts[k];
        var cs := Filter(comments, OnPost(postId));
        assert forall c :: multiset(cs)[c] == if c.post == Some(postId) then multiset(comments)[c] else 0 by {
          forall c
            ensures multiset(cs)[c] == if c.post == Some(postId) then multiset(comments)[c] else 0
          {
            FilterCount(comments, OnPost(postId), c);
          }
        }
        Ok(DetailView(p, |Listing(posts, ByAuthor(p.author))|, cs))
    }

    /** The follow feed: a page of the posts of the authors the caller follows. */
    function FollowIndex(caller: Option<UserId>, page: Option<int>): (r: Result<seq<Post>, Failure>)
      reads this
      ensures r.Err? <==> caller.None?
      ensures r.Err? ==> r.error == LoginRequired
      ensures r.Ok? ==> |r.value| <= PostsCount && Sorted(r.value)
      ensures r.Ok? ==> forall i :: 0 <= i < |r.value| ==>
        r.value[i] in posts && Follow(caller.value, r.value[i].author) in follows
      ensures r.Ok? ==> r.value == GetPage(Feed(posts, follows, caller.value), page)
    {
      match caller
      case None => Err(LoginRequired)
      case Some(u) => Ok(GetPage(Feed(posts, follows, u), page))
    }
    // ----- Handlers that write -----

    /**
     * Follow `username`: anonymous callers go to the login page, an unknown user is not
     * found, following oneself changes nothing, otherwise the edge is got or created.
     */
    method ProfileFollow(caller: Option<UserId>, username: UserId) returns (r: Response)
      requires Valid()
      requires caller.Some? ==> caller.value in users
      modifies this`follows
      ensures Valid()
      ensures caller.None? ==> r == LoginRedirect
      ensures caller.Some? && username !in users ==> r == NotFound
      ensures caller.Some? && username in users ==> r == ToProfile(username)
      ensures caller.None? || username !in users || caller == Some(username) ==> follows == old(follows)
      ensures caller.Some? && Follow(caller.value, username) in old(follows) ==> follows == old(follows)
      ensures caller.Some? && username in users && caller != Some(username) ==>
        && follows == GetOrCreate(old(follows), Follow(caller.value, username))
        && multiset(follows)[Follow(caller.value, username)] == 1
    {
      if caller.None? {
        return LoginRedirect;
      }
      if username !in users {
        return NotFound;
      }
      var u := caller.value;
      if username == u {
        return ToProfile(username);
      }
      GetOrCreateUnique(follows, Follow(u, username));
      if Follow(u, username) in follows {
        GetOrCreateExisting(follows, Follow(u, username));
      }
      follows := GetOrCreate(follows, Follow(u, username));
      r := ToProfile(username);
    }

    /** Unfollow `username`: the `(caller, username)` edge is deleted if it is stored. */
    method ProfileUnfollow(caller: Option<UserId>, username: UserId) returns (r: Response)
      requires Valid()
      modifies this`follows
      ensures Valid()
      ensures caller.None? ==> r == LoginRedirect
      ensures caller.Some? && username !in users ==> r == NotFound
      ensures caller.Some? && username in users ==> r == ToProfile(username)
      ensures caller.None? || username !in users ==> follows == old(follows)
      ensures caller.Some? && username in users ==>
        && follows == Unfollowed(old(follows), Follow(caller.value, username))
        && Follow(caller.value, username) !in follows
        && (Follow(caller.value, username) !in old(follows) ==> follows == old(follows))
    {
      if caller.None? {
        return LoginRedirect;
      }
      if username !in users {
        return NotFound;
      }
      var edge := Follow(caller.value, username);
      if edge in follows {
        FilterKeysDistinct(follows, NotEdge(edge), EdgeKey);
        follows := Unfollowed(follows, edge);
      } else {
        UnfollowAbsent(follows, edge);
      }
      r := ToProfile(username);
    }

    /**
     * Create a post: anonymous callers go to the login page; a GET or an invalid form shows
     * the form; a valid form stores a new post by the caller, dated now.
     */
    method PostCreate(caller: Option<UserId>, verb: Method, form: PostForm) returns (r: Response)
      requires Valid()
      requires caller.Some? ==> caller.value in users
      modifies this`posts, this`nextPostId, this`clock
      ensures Valid()
      ensures caller.None? ==> r == LoginRedirect
      ensures caller.Some? && (verb == GET || !PostFormValid(form, groups)) ==> r == ShowForm
      ensures caller.Some? && verb == POST && PostFormValid(form, groups) ==>
        && r == ToProfile(caller.value)
        && posts == old(posts) + [Post(old(nextPostId), form.text, old(clock), form.group, caller.value)]
        && nextPostId == old(nextPostId) + 1 && clock == old(clock) + 1
        && old(nextPostId) !in PostIds(old(posts))
        && Listing(posts, AnyPost())[0] == posts[|posts| - 1]
      ensures !(caller.Some? && verb == POST && PostFormValid(form, groups)) ==>
        posts == old(posts) && nextPostId == old(nextPostId) && clock == old(clock)
    {
      if caller.None? {
        return LoginRedirect;
      }
      if verb == GET || !PostFormValid(form, groups) {
        return ShowForm;
      }
      var p := Publish(form.text, form.group, caller.value);
      r := ToProfile(caller.value);
    }

    /** Store a new post with the next id, dated now; it heads the index listing. */
    method Publish(text: string, group: Option<GroupId>, author: UserId) returns (p: Post)
      requires Valid()
      requires author in users && (group.Some? ==> group.value in GroupIds(groups))
      modifies this`posts, this`nextPostId, this`clock
      ensures Valid()
      ensures p == Post(old(nextPostId), text, old(clock), group, author)
      ensures posts == old(posts) + [p] && nextPostId == old(nextPostId) + 1 && clock == old(clock) + 1
      ensures old(nextPostId) !in PostIds(old(posts))
      ensures Listing(posts, AnyPost()) != [] && Listing(posts, AnyPost())[0] == p
    {
      p := Post(nextPostId, text, clock, group, author);
      PostPublishedOk(posts, comments, users, GroupIds(groups), nextPostId, nextCommentId, clock, p);
      posts := posts + [p];
      nextPostId := nextPostId + 1;
      clock := clock + 1;
    }

    /**
     * Edit a post: an unknown post is not found; anyone but its author (an anonymous caller
     * included) is sent to the post's page with nothing changed; the author gets the form on
     * GET, and on POST the post's text and group are replaced. Saving an invalid form fails.
     */
    method PostEdit(caller: Option<UserId>, postId: PostId, verb: Method, form: PostForm) returns (r: Response)
      requires Valid()
      modifies this`posts
      ensures Valid()
      ensures FindPost(old(posts), postId).None? ==> r == NotFound && posts == old(posts)
      ensures FindPost(old(posts), postId).Some? ==>
        var k := FindPost(old(posts), postId).value;
        var p := old(posts)[k];
        && (caller != Some(p.author) ==> r == ToPostDetail(postId) && posts == old(posts))
        && (caller == Some(p.author) && verb == GET ==> r == ShowForm && posts == old(posts))
        && (caller == Some(p.author) && verb == POST && !PostFormValid(form, groups) ==>
              r == ServerError && posts == old(posts))
        && (caller == Some(p.author) && verb == POST && PostFormValid(form, groups) ==>
              r == ToPostDetail(postId) && posts == old(posts)[k := p.(text := form.text, group := form.group)])
      ensures |posts| == |old(posts)|
      ensures forall i :: 0 <= i < |posts| ==>
        posts[i].id == old(posts)[i].id && posts[i].author == old(posts)[i].author && posts[i].pubDate == old(posts)[i].pubDate
    {
      var found := FindPost(posts, postId);
      if found.None? {
        return NotFound;
      }
      var k := found.value;
      var p := posts[k];
      if caller != Some(p.author) {
        return ToPostDetail(postId);
      }
      if verb == GET {
        return ShowForm;
      }
      if !PostFormValid(form, groups) {
        return ServerError;
      }
      PostsOkEdit(posts, users, GroupIds(groups), nextPostId, clock, k, form.text, form.group);
      var edited := posts[k := p.(text := form.text, group := form.group)];
      posts := edited;
      r := ToPostDetail(postId);
    }

    /**
     * Comment on a post: anonymous callers go to the login page, an unknown post is not found;
     * a valid form stores one comment by the caller on the post, an invalid one stores nothing.
     */
    method AddComment(caller: Option<UserId>, postId: PostId, data: Option<string>) returns (r: Response)
      requires Valid()
      requires caller.Some? ==> caller.value in users
      modifies this`comments, this`nextCommentId, this`clock
      ensures Valid()
      ensures caller.None? ==> r == LoginRedirect
      ensures caller.Some? && FindPost(posts, postId).None? ==> r == NotFound
      ensures caller.Some? && FindPost(posts, postId).Some? ==> r == ToPostDetail(postId)
      ensures caller.Some? && FindPost(posts, postId).Some? && CommentFormValid(data) ==>
        && comments == old(comments) + [Comment(old(nextCommentId), Some(postId), caller.value, data.value, old(clock))]
        && nextCommentId == old(nextCommentId) + 1 && clock == old(clock) + 1
      ensures !(caller.Some? && FindPost(posts, postId).Some? && CommentFormValid(data)) ==>
        comments == old(comments) && nextCommentId == old(nextCommentId) && clock == old(clock)
    {
      if caller.None? {
        return LoginRedirect;
      }
      if FindPost(posts, postId).None? {
        return NotFound;
      }
      if CommentFormValid(data) {
        var c := Comment(nextCommentId, Some(postId), caller.value, data.value, clock);
        AppendKeysDistinct(comments, c, CommentKey);
        PostsOkLater(posts, users, GroupIds(groups), nextPostId, clock);
        comments := comments + [c];
        nextCommentId := nextCommentId + 1;
        clock := clock + 1;
      }
      r := ToPostDetail(postId);
    }

    // ----- Deletes and their on-delete rules -----

    /** Deleting a group keeps its posts and sets their group to none. */
    method DeleteGroup(id: GroupId)
      requires Valid()
      modifies this`groups, this`posts
      ensures Valid()
      ensures groups == Filter(old(groups), NotGroup(id))
      ensures |posts| == |old(posts)|
      ensures forall i :: 0 <= i < |posts| ==> posts[i] == Ungrouped(old(posts)[i], id)
    {
      GroupDeletedOk(groups, nextGroupId, posts, users, nextPostId, clock, id);
      var kept := UngroupAll(posts, id);
      groups := Filter(groups, NotGroup(id));
      posts := kept;
    }

    /** Deleting a post deletes exactly its comments. */
    method DeletePost(id: PostId)
      requires Valid()
      modifies this`posts, this`comments
      ensures Valid()
      ensures posts == Filter(old(posts), NotPost(id))
      ensures comments == Filter(old(comments), NotOnPost(id))
    {
      FilterKeysDistinct(posts, NotPost(id), PostKey);
      FilterKeysDistinct(comments, NotOnPost(id), CommentKey);
      posts := Filter(posts, NotPost(id));
      comments := Filter(comments, NotOnPost(id));
    }

    /**
     * Deleting a user deletes their posts, their comments, the comments on their posts,
     * and every follow edge they are an end of.
     */
    method DeleteUser(u: UserId)
      requires Valid()
      modifies this`users, this`posts, this`comments, this`follows
      ensures Valid()
      ensures users == old(users) - {u}
      ensures posts == Filter(old(posts), NotByAuthor(u))
      ensures comments == Filter(old(comments), CommentSurvives(u, PostIdsBy(old(posts), u)))
      ensures follows == Filter(old(follows), NotTouching(u))
    {
      PostsOkAfterUserDeleted(posts, users, GroupIds(groups), nextPostId, clock, u);
      CommentsOkAfterUserDeleted(comments, posts, users, nextCommentId, clock, u);
      FollowsOkAfterUserDeleted(follows, users, u);
      var gone := PostIdsBy(posts, u);
      var keptPosts := Filter(posts, NotByAuthor(u));
      var keptComments := Filter(comments, CommentSurvives(u, gone));
      users := users - {u};
      posts := keptPosts;
      comments := keptComments;
      follows := Filter(follows, NotTouching(u));
    }
  }
}
