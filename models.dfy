/**
 * The records of the posts application: groups, posts, comments and follow edges,
 * their admin string forms and the default order of posts.
 * Users are identified by their username; image uploads are not part of this model.
 */
module Models {
  import opened Wrappers

  type UserId = string
  type GroupId = nat
  type PostId = nat
  type CommentId = nat

  /** How many characters of a post's text its string form shows. */
  const NumberOfCharactersInPost: nat := 15

  /** A category of posts; `slug` is unique across groups. */
  datatype Group = Group(id: GroupId, title: string, slug: string, description: string)

  /** A post; `pubDate` is the store's clock at creation, `group` is optional, `author` required. */
  datatype Post = Post(id: PostId, text: string, pubDate: nat, group: Option<GroupId>, author: UserId)

  /** A comment; the post reference is nullable in the schema, the author is required. */
  datatype Comment = Comment(id: CommentId, post: Option<PostId>, author: UserId, text: string, pubDate: nat)

  /** A directed follow edge: `user` subscribes to `author`. */
  datatype Follow = Follow(user: UserId, author: UserId)

  /** A group's string form is its title. */
  function GroupStr(g: Group): (r: string)
    ensures r == g.title
  {
    g.title
  }

  /** A post's string form is the first `NumberOfCharactersInPost` characters of its text. */
  function PostStr(p: Post): (r: string)
    ensures |r| == if |p.text| < NumberOfCharactersInPost then |p.text| else NumberOfCharactersInPost
    ensures r <= p.text
    ensures |p.text| <= NumberOfCharactersInPost ==> r == p.text
  {
    if |p.text| <= NumberOfCharactersInPost then p.text else p.text[..NumberOfCharactersInPost]
  }

  // Keys of the unique constraints.
  function GroupKey(g: Group): GroupId { g.id }
  function SlugKey(g: Group): string { g.slug }
  function PostKey(p: Post): PostId { p.id }
  function CommentKey(c: Comment): CommentId { c.id }
  /** The `(user, author)` pair a follow edge is unique on. */
  function EdgeKey(f: Follow): (UserId, UserId) { (f.user, f.author) }

  /** Characters a form's text field strips before checking that it is not empty. */
  predicate IsWhitespace(c: char) {
    c == ' ' || c == '\t' || c == '\n' || c == '\r' || c == '\U{B}' || c == '\U{C}'
  }

  /** A text that is empty after stripping whitespace: the forms reject it. */
  predicate Blank(s: string) {
    forall i :: 0 <= i < |s| ==> IsWhitespace(s[i])
  }

  /**
   * The default order of posts: newest `pubDate` first, then smaller `id` first.
   * `Precedes(a, b)` holds when `a` may be listed before `b`.
   */
  predicate Precedes(a: Post, b: Post) {
    a.pubDate > b.pubDate || (a.pubDate == b.pubDate && a.id <= b.id)
  }

  /** The default order is a total preorder, and an order on posts with distinct ids. */
  lemma PrecedesTotalOrder(a: Post, b: Post, c: Post)
    ensures Precedes(a, a)
    ensures Precedes(a, b) || Precedes(b, a)
    ensures Precedes(a, b) && Precedes(b, c) ==> Precedes(a, c)
    ensures Precedes(a, b) && Precedes(b, a) ==> a.id == b.id && a.pubDate == b.pubDate
  {
  }
}
