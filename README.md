# Yatube posts: the post/follow store and its access rules

Yatube is a small blogging site. Users write posts, which may belong to a group. Other users
comment on posts and follow authors to get a personal feed. This project models the posts
application's data and the rules its views apply to it:

- the records `Group`, `Post`, `Comment` and `Follow`;
- their unique constraints: group slugs, and `(user, author)` follow pairs;
- the default post order: newest `pub_date` first, then smaller id first;
- the on-delete rules;
- the read views (`index`, `group_posts`, `profile`, `post_detail`, `follow_index`), which
  filter, order and cut listings into pages of 10;
- the handlers that write (`post_create`, `post_edit`, `add_comment`, `profile_follow`,
  `profile_unfollow`).

Layout, one module per file:

- `wrappers.dfy` (`Wrappers`): `Option` and `Result`.
- `seqs.dfy` (`Seqs`): tables as sequences. `Filter` is a `WHERE` clause. `KeysDistinct`
  is a unique constraint.
- `models.dfy` (`Models`): the record datatypes, the `__str__` forms, the key of each unique
  constraint, the blank-text test and the default order `Precedes`.
- `ordering.dfy` (`Ordering`): the default order as an insertion sort, and the proof that
  the order is fixed.
- `paging.dfy` (`Paging`): the paginator with `POSTS_COUNT` = 10.
- `queries.dfy` (`Queries`): the conditions of the views, ordered listings, lookups by key,
  and what following and unfollowing do to the follow table.
- `store.dfy` (`Store`): the class `Store`. Its fields are the tables and the id and date
  counters. `Valid()` is the schema: unique keys, and every reference points to a stored row.
  The read views are functions of the fields. The handlers and the deletes are methods; each
  keeps `Valid()` and states the new contents of every table it may change.

The caller of a view is an `Option<UserId>`: `None` is an anonymous visitor. Users are
identified by username. A handler's answer is a small tag (`LoginRedirect`, `NotFound`,
`ToProfile`, `ToPostDetail`, `ShowForm`, `ServerError`), not a rendered page.
`pub_date` is the store's `clock` counter, which every post and comment creation advances.

Behaviours of the code worth noting:

- `Meta.ordering` is `['-pub_date', 'id']`: posts with equal dates are listed by ascending
  id (yatube/posts/models.py:44-45).
- `post_edit` calls `form.save()` on a POST without calling `is_valid()` first
  (yatube/posts/views.py:95-96). A model form refuses to save invalid data by raising an
  error, so an author's invalid edit is modelled as `ServerError` with nothing changed. It
  does not re-display the form.
- `post_edit` has no login requirement. An anonymous caller is "not the author" and is
  sent to the post's page (yatube/posts/views.py:93-94).

## Model

| member | source | states |
|---|---|---|
| `Models.GroupStr` | yatube/posts/models.py:15-16 | a group's string form is its title |
| `Models.PostStr` | yatube/posts/models.py:47-48 | a post's string form is the prefix of its text of length min(15, length of text); a text of at most 15 characters is shown whole |
| `Models.Precedes` | yatube/posts/models.py:44-45 | the default order `['-pub_date', 'id']`: a post may be listed before another when it is newer, or equally dated with an id no larger |
| `Models.PrecedesTotalOrder` | yatube/posts/models.py:44-45 | the default order (newer date first, then smaller id) is reflexive, total and transitive; two posts that precede each other have the same id and date |
| `Ordering.Insert` | yatube/posts/models.py:44-45 | inserting a post into a sorted listing gives a sorted listing of exactly the old posts plus the new one |
| `Ordering.Sort` | yatube/posts/models.py:44-45 | the default order of a set of posts is sorted and a permutation of them |
| `Ordering.SortedUnique` | yatube/posts/models.py:44-45 | two sorted arrangements of the same posts with distinct ids are identical: the listing order is fixed |
| `Ordering.SortDeterministic` | yatube/posts/models.py:44-45 | a listing does not depend on the order in which rows are stored |
| `Ordering.NewestFirst` | yatube/posts/models.py:44-45 | a post dated after every other is listed first |
| `Paging.NumPages` | yatube/posts/views.py:13 | a listing has at least one page, an empty listing exactly one, all records fit in its pages, and a non-empty listing has no empty trailing page |
| `Paging.PageNumber` | yatube/posts/views.py:14-15 | the served page number is always valid: a missing or non-numeric parameter gives page 1, a valid number is served as asked, any other number gives the last page |
| `Paging.Page` | yatube/posts/views.py:13-15 | a page is a contiguous slice of the listing starting at record (k-1)*10; it holds at most 10 records, exactly 10 when it is not the last page, the last page runs to the end of the listing, and at least one when the listing is non-empty |
| `Paging.GetPage` | yatube/posts/views.py:8-15 | the page shown is the contiguous slice of the listing that starts at record (k-1)*10 for the served page number k; it holds at most `POSTS_COUNT` = 10 records, exactly 10 unless it is the last page, the last page runs to the end of the listing, and at least one when the listing is non-empty |
| `Paging.PagesFromCover` | yatube/posts/views.py:13-15 | pages k to last, concatenated, are the listing from record (k-1)*10 on |
| `Paging.PagesCover` | yatube/posts/views.py:13-15 | all pages in order are the listing: every record is on exactly one page, in order |
| `Paging.ThirteenRecords` | yatube/posts/tests/test_views.py:285-321 | 13 records give 2 pages, with 10 records on page 1 and 3 on page 2 |
| `Queries.Listing` | yatube/posts/views.py:12 | a listing is sorted in the default order and holds exactly the stored posts that satisfy the view's condition |
| `Queries.AuthorPostCount` | yatube/posts/views.py:37-38 | with unique post ids, the length of an author's listing is the number of distinct posts that author wrote |
| `Queries.FollowedAuthors` | yatube/posts/views.py:120 | the followed authors of `u` are exactly the `a` with a stored edge `(u, a)` |
| `Queries.Feed` | yatube/posts/views.py:120-121 | the follow feed is sorted, holds exactly the posts whose author the caller follows, and lists each of them once (its length is the number of matching rows) |
| `Queries.FindPost` | yatube/posts/views.py:58 | the lookup by id returns a position holding that id, and finds nothing only when no post has it |
| `Queries.FindGroup` | yatube/posts/views.py:23 | the lookup by slug returns a stored group with that slug, and finds nothing only when no group has it |
| `Queries.FindGroupUnique` | yatube/posts/models.py:12 | with unique slugs, the lookup by slug finds the one group that carries the slug |
| `Queries.GetOrCreate` | yatube/posts/views.py:136-139 | after get-or-create the edge is stored, no other edge is added or removed, and the table grows by at most one row |
| `Queries.GetOrCreateIdempotent` | yatube/posts/views.py:136-139 | following the same author twice leaves the same table as following once |
| `Queries.GetOrCreateExisting` | yatube/posts/views.py:136-139 | following an author whose edge is already stored leaves the table unchanged |
| `Queries.GetOrCreateUnique` | yatube/posts/models.py:85-86 | get-or-create keeps `(user, author)` unique, and the edge is then stored exactly once |
| `Queries.Unfollowed` | yatube/posts/views.py:148-151 | after unfollowing, the edge is not stored, and every other edge is stored if and only if it was before |
| `Queries.UnfollowedOthers` | yatube/posts/views.py:148-151 | unfollowing leaves the multiplicity of every other edge unchanged |
| `Queries.UnfollowAbsent` | yatube/posts/views.py:150-151 | unfollowing an edge that is not stored leaves the table exactly as it was |
| `Queries.FollowThenUnfollow` | yatube/posts/views.py:136-151 | following a new author and then unfollowing restores the follow table exactly |
| `Store.PostIdsBy` | yatube/posts/models.py:32-37 | the posts a user's deletion cascades to are exactly that user's posts |
| `Store.Ungrouped` | yatube/posts/models.py:23-27 | deleting a group sets a post's group to none if the post was in that group, and keeps its id, author, text and date |
| `Store.UngroupAll` | yatube/posts/models.py:23-27 | deleting a group keeps every post, each with its group reference set to null if it pointed at the group |
| `Store.PostFormValid` | yatube/posts/views.py:76 | the post form's `is_valid()`: the text is not blank and a chosen group is a stored group |
| `Store.CommentFormValid` | yatube/posts/views.py:110 | the comment form's `is_valid()`: text was submitted and is not blank |
| `Store.GroupsOk` | yatube/posts/models.py:10-13 | the groups table: ids and slugs unique, ids below the id counter |
| `Store.PostsOk` | yatube/posts/models.py:19-37 | the posts table: ids unique, each post dated before the clock, by a stored user, in a stored group if any |
| `Store.CommentsOk` | yatube/posts/models.py:51-68 | the comments table: ids unique, each comment dated before the clock, by a stored user, on a stored post if any |
| `Store.FollowsOk` | yatube/posts/models.py:71-86 | the follow table: `(user, author)` pairs unique and both ends stored users |
| `Store.GroupsUnique` | yatube/posts/models.py:10-13 | in a valid groups table, two groups with the same slug or the same id are the same group |
| `Store.PostsUnique` | yatube/posts/models.py:19-37 | in a valid posts table, a post id identifies one post |
| `Store.CommentsUnique` | yatube/posts/models.py:51-68 | in a valid comments table, a comment id identifies one comment |
| `Store.FollowsUnique` | yatube/posts/models.py:85-86 | in a valid follow table, a `(user, author)` pair is one edge, stored exactly once |
| `Store.PostPublishedOk` | yatube/posts/views.py:76-79 | publishing a post with the next id, dated now, keeps the posts and comments tables valid, takes an id no post has, and puts the post at the head of the home page listing |
| `Store.FollowedNewPostShown` | yatube/posts/views.py:118-128 | a post newer than every other, by an author the caller follows, is the first post on the first page of the caller's feed |
| `Store.PostsOkAppend` | yatube/posts/views.py:76-79 | a new post with a fresh id and the current date, by a stored user, in a stored group (if any), keeps the posts table valid |
| `Store.PostsOkEdit` | yatube/posts/views.py:95-96 | editing a post's text and group keeps the posts table valid and keeps every post id |
| `Store.GroupDeletedOk` | yatube/posts/models.py:23-27 | after a group's deletion, group and slug uniqueness still hold, no post references the deleted group, and no post is lost |
| `Store.NewPostListedFirst` | yatube/posts/views.py:11-12 | a newly created post heads the home page listing |
| `Store.PostsOkAfterUserDeleted` | yatube/posts/models.py:32-37 | after a user's deletion, no stored post is by that user and post ids stay unique |
| `Store.CommentsOkAfterUserDeleted` | yatube/posts/models.py:52-65 | after a user's deletion, every remaining comment references a remaining post and a remaining user |
| `Store.FollowsOkAfterUserDeleted` | yatube/posts/models.py:72-86 | after a user's deletion, every remaining edge joins remaining users, and pairs stay unique |
| `Store.Store.Valid` | yatube/posts/models.py:10-86 | the schema: all four tables valid, with comments referring to stored posts and posts to stored groups |
| `Store.Store.ValidReferences` | yatube/posts/models.py:19-86 | in a valid store every author, group, post and follow end referenced is stored, group slugs are unique, and each follow edge is stored exactly once |
| `Store.Store.AddUser` | yatube/posts/models.py:4 | registering a username adds it; a taken username is reported |
| `Store.Store.AddGroup` | yatube/posts/models.py:10-13 | a group is created only when its slug is new, with the next id, which the counter then passes; otherwise the table is unchanged |
| `Store.Store.Index` | yatube/posts/views.py:11-19 | the home page shows the requested page of all stored posts in the default order: at most 10 posts, all stored, and at least one when any post exists |
| `Store.Store.GroupPosts` | yatube/posts/views.py:22-32 | an unknown slug is not found; otherwise the group with that slug and the requested page of the listing of that group's posts, at most 10 stored posts of that group |
| `Store.Store.Profile` | yatube/posts/views.py:35-54 | an unknown user is not found; otherwise the requested page of the listing of the author's posts, the count of all the author's posts, and `following` true exactly when an authenticated caller has an edge to the author |
| `Store.Store.PostDetail` | yatube/posts/views.py:57-69 | an unknown id is not found; otherwise the post with that id, the number of posts by its author, and exactly the comments bound to the post, each as often as it is stored (so once) and nothing else |
| `Store.Store.FollowIndex` | yatube/posts/views.py:118-128 | an anonymous caller must log in; otherwise the requested page of the caller's feed: at most 10 stored posts, each by an author the caller follows |
| `Store.Store.ProfileFollow` | yatube/posts/views.py:131-142 | an anonymous caller must log in; an unknown user is not found; following yourself or an author already followed changes nothing; otherwise the edge is got or created and is then stored exactly once; the schema stays valid |
| `Store.Store.ProfileUnfollow` | yatube/posts/views.py:145-152 | an anonymous caller must log in; an unknown user is not found; otherwise the edge is gone, every other edge is kept, and an absent edge leaves the table unchanged |
| `Store.Store.PostCreate` | yatube/posts/views.py:72-86 | an anonymous caller must log in; a GET or an invalid form shows the form and changes nothing; a valid form appends exactly one post by the caller, with a fresh id, dated now, that heads the home page listing, advances the id and date counters by one, and leaves the existing posts unchanged |
| `Store.Store.PostEdit` | yatube/posts/views.py:89-103 | an unknown post is not found; anyone but the author, an anonymous caller included, is sent to the post with every post unchanged; the author's GET changes nothing; the author's valid POST replaces only that post's text and group; ids, authors and dates never change |
| `Store.Store.Publish` | yatube/posts/views.py:76-79 | saving a new post appends it with the next id, dated now, advances both counters, keeps the schema valid, and the post heads the home page listing |
| `Store.Store.AddComment` | yatube/posts/views.py:106-115 | an anonymous caller must log in; an unknown post is not found; a valid form appends exactly one comment bound to the post and the caller, with the next id, dated now, and advances the id and date counters by one; invalid input changes nothing |
| `Store.Store.DeleteGroup` | yatube/posts/models.py:23-27 | deleting a group removes only that group; every post is kept, with its group set to none where it was that group |
| `Store.Store.DeletePost` | yatube/posts/models.py:52-56 | deleting a post removes that post and exactly the comments bound to it |
| `Store.Store.DeleteUser` | yatube/posts/models.py:32-37 | deleting a user removes their posts, their comments, the comments on their posts, and every follow edge with them at either end, and nothing else |

## Left out

- HTTP, routing, redirect targets and template rendering: a handler returns a response tag and a read view returns the data of its context, not a page.
- Authentication and `login_required`: the caller is a parameter. An authenticated caller is assumed to be a stored user, which is why `ProfileFollow`, `PostCreate` and `AddComment` require that.
- Form validation internals (`PostForm`, `CommentForm`): the forms module is not part of this model. Validity is modelled as "the text is not blank, and a chosen group exists". Blank means made only of ASCII whitespace. Python's strip also removes other Unicode whitespace, which is not modelled. The saved text is the text as submitted: the form field's stripping of leading and trailing whitespace before saving is not modelled.
- The post image field and media storage: these are file I/O. Edits therefore change only the text and group.
- The home page cache and its timeout (yatube/posts/tests/test_views.py:142-153): this is framework time-based caching.
- Real timestamps: `pub_date` is a counter that every post and comment creation advances, so posts created through the handlers never tie on date. Ties still sort by id.
- The page query parameter is given already parsed. `None` stands for a missing or non-integer string; a number stands for an integer string.
- Store.Store.PostDetail: `Comment` declares no default order, so the model keeps insertion order. The contract states which comments are shown and how often, not their order.
- User registration and group administration belong to other applications. `AddUser` and `AddGroup` exist only so that users and groups can enter the store. Field lengths (`max_length`) are not enforced.
- Transactions and concurrent requests: each handler is modelled as one atomic step.
