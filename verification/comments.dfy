/** The comment controller: creating a comment (listed on its post when the
    post exists), the comments of a post newest first, and deletion by the
    author, which also takes the id off the post's list. */
module Comments {
  import opened Base
  import opened Listing
  import opened Store

  /** `createComment`. The comment is stored whether or not the post exists;
      its id is appended to the post's `comments` only when it does. */
  function CreateComment(s: Store, caller: Id, post: Id, text: string): (r: Step<Id>)
    ensures r.reply !in s.comments && r.reply !in s.posts
    ensures r.store.comments == s.comments[r.reply := Comment(post, text, caller)]
    ensures post in s.posts ==>
      r.store.posts == s.posts[post := s.posts[post].(comments := s.posts[post].comments + [r.reply])]
    ensures post !in s.posts ==> r.store.posts == s.posts
    ensures r.store.users == s.users && r.store.connections == s.connections && r.store.messages == s.messages
      && r.store.notifications == s.notifications
  {
    var created := AddComment(s, Comment(post, text, caller));
    if post in s.posts then
      var p := s.posts[post];
      Step(WithPosts(created.store, s.posts[post := p.(comments := p.comments + [created.reply])]), created.reply)
    else created
  }

  /** The comment belongs to `post`. */
  predicate On(c: Comment, post: Id) {
    c.post == post
  }

  /** `getCommentsByPost`: the comments naming the post, newest first. Posts
      that do not exist simply have none. */
  function CommentsOf(s: Store, post: Id): (r: seq<(Id, Comment)>)
    ensures forall i | 0 <= i < |r| :: r[i].0 in s.comments && r[i].1 == s.comments[r[i].0] && r[i].1.post == post
    ensures forall k | k in s.comments && s.comments[k].post == post :: (k, s.comments[k]) in r
    ensures forall i, j | 0 <= i < j < |r| :: r[i].0 > r[j].0
  {
    var r := Descending(s.comments, (c: Comment) => On(c, post), s.nextId);
    forall k | k in s.comments && s.comments[k].post == post
      ensures (k, s.comments[k]) in r
    {
      assert k < s.nextId;
    }
    r
  }

  /** `deleteComment`: 404 for an unknown id, 401 unless the caller wrote the
      comment. Otherwise every occurrence of the id leaves the post's list
      (when the post still exists) and the comment is deleted. */
  function DeleteComment(s: Store, caller: Id, id: Id): (r: Result<Store>)
    ensures id !in s.comments ==> r == Err(NotFound)
    ensures id in s.comments && s.comments[id].author != caller ==> r == Err(Unauthorized)
    ensures r.Ok? <==> id in s.comments && s.comments[id].author == caller
    ensures r.Ok? ==> r.value.comments == s.comments - {id}
    ensures r.Ok? ==> var post := s.comments[id].post;
      && (post in s.posts ==>
            && r.value.posts.Keys == s.posts.Keys
            && r.value.posts[post].(comments := s.posts[post].comments) == s.posts[post]
            && multiset(r.value.posts[post].comments) == multiset(s.posts[post].comments)[id := 0]
            && Subsequence(r.value.posts[post].comments, s.posts[post].comments)
            && forall p | p in s.posts && p != post :: r.value.posts[p] == s.posts[p])
      && (post !in s.posts ==> r.value.posts == s.posts)
    ensures r.Ok? ==>
      && r.value.users == s.users && r.value.connections == s.connections
      && r.value.messages == s.messages && r.value.notifications == s.notifications
  {
    if id !in s.comments then Err(NotFound)
    else if s.comments[id].author != caller then Err(Unauthorized)
    else
      var post := s.comments[id].post;
      PullKeepsOrder(if post in s.posts then s.posts[post].comments else [], id);
      var unlisted :=
        if post in s.posts then
          WithPosts(s, s.posts[post := s.posts[post].(comments := Pull(s.posts[post].comments, id))])
        else s;
      Ok(WithComments(unlisted, s.comments - {id}))
  }

  /** After a deletion no post lists the comment. */
  lemma DeleteCommentUnlists(s: Store, caller: Id, id: Id)
    requires CommentsBacked(s.posts, s.comments)
    requires DeleteComment(s, caller, id).Ok?
    ensures var t := DeleteComment(s, caller, id).value;
      forall p | p in t.posts :: id !in t.posts[p].comments
  {
    var t := DeleteComment(s, caller, id).value;
    var post := s.comments[id].post;
    forall p | p in t.posts
      ensures id !in t.posts[p].comments
    {
      if p == post {
        assert id !in multiset(t.posts[p].comments);
      } else {
        assert t.posts[p] == s.posts[p];
      }
    }
  }

  /** A comment on an existing post lengthens its list by exactly one, with
      the new id at the end. */
  lemma CreateCommentListsOnce(s: Store, caller: Id, post: Id, text: string)
    requires CommentsBacked(s.posts, s.comments)
    requires post in s.posts
    ensures var step := CreateComment(s, caller, post, text);
      && |step.store.posts[post].comments| == |s.posts[post].comments| + 1
      && multiset(step.store.posts[post].comments)[step.reply] == 1
  {
    var step := CreateComment(s, caller, post, text);
    assert step.reply !in s.posts[post].comments;
    assert multiset(s.posts[post].comments)[step.reply] == 0;
  }

  /** Storing a new comment, and listing it on its post when that exists,
      keeps the post lists duplicate-free and backed. */
  lemma ListingNewKeepsPosts(posts: map<Id, Post>, comments: map<Id, Comment>, k: Id, c: Comment)
    requires PostListsDistinct(posts) && CommentsBacked(posts, comments)
    requires k !in comments
    ensures var listed :=
        if c.post in posts then posts[c.post := posts[c.post].(comments := posts[c.post].comments + [k])] else posts;
      PostListsDistinct(listed) && CommentsBacked(listed, comments[k := c])
  {
    if c.post in posts {
      assert k !in posts[c.post].comments;
    }
  }

  /** Deleting a comment and filtering its id out of its post's list keeps
      the post lists duplicate-free and backed. */
  lemma UnlistingKeepsPosts(posts: map<Id, Post>, comments: map<Id, Comment>, id: Id)
    requires PostListsDistinct(posts) && CommentsBacked(posts, comments)
    requires id in comments
    ensures var post := comments[id].post;
      var unlisted :=
        if post in posts then posts[post := posts[post].(comments := Pull(posts[post].comments, id))] else posts;
      PostListsDistinct(unlisted) && CommentsBacked(unlisted, comments - {id})
  {
    var post := comments[id].post;
    if post in posts {
      UnlistedDistinct(posts, post, id);
      UnlistedBacked(posts, comments, id);
    }
  }

  /** Filtering an id out of one post's list keeps every list duplicate-free. */
  lemma UnlistedDistinct(posts: map<Id, Post>, post: Id, id: Id)
    requires PostListsDistinct(posts) && post in posts
    ensures PostListsDistinct(posts[post := posts[post].(comments := Pull(posts[post].comments, id))])
  {
    PullDistinct(posts[post].comments, id);
  }

  /** Filtering a comment's id out of its post's list, and deleting the
      comment, leaves every listed id backed by a comment on that post. */
  lemma UnlistedBacked(posts: map<Id, Post>, comments: map<Id, Comment>, id: Id)
    requires CommentsBacked(posts, comments)
    requires id in comments && comments[id].post in posts
    ensures var post := comments[id].post;
      CommentsBacked(posts[post := posts[post].(comments := Pull(posts[post].comments, id))], comments - {id})
  {
    var post := comments[id].post;
    var unlisted := posts[post := posts[post].(comments := Pull(posts[post].comments, id))];
    PullMembership(posts[post].comments, id);
    forall p, c | p in unlisted && c in unlisted[p].comments
      ensures c in comments - {id} && comments[c].post == p
    {
      if p == post {
        assert c in posts[post].comments && c != id;
      } else {
        assert unlisted[p] == posts[p];
      }
    }
  }

  lemma CreateCommentValid(s: Store, caller: Id, post: Id, text: string)
    requires Valid(s)
    ensures Valid(CreateComment(s, caller, post, text).store)
  {
    var step := CreateComment(s, caller, post, text);
    ListingNewKeepsPosts(s.posts, s.comments, step.reply, Comment(post, text, caller));
  }

  lemma DeleteCommentValid(s: Store, caller: Id, id: Id)
    requires Valid(s)
    requires DeleteComment(s, caller, id).Ok?
    ensures Valid(DeleteComment(s, caller, id).value)
  {
    UnlistingKeepsPosts(s.posts, s.comments, id);
  }
}
