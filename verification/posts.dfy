/** The post controller: creating a post (with an optional uploaded image),
    the feed newest first, reading, updating and deleting a post (author
    only), and the like toggle. */
module Posts {
  import opened Base
  import opened Listing
  import opened Store
  import opened Text

  /** The stored image path: empty without an upload, otherwise the upload's
      path with forward slashes. */
  function ImagePath(file: Option<string>): (r: string)
    ensures file.None? ==> r == ""
    ensures file.Some? ==> |r| == |file.value| && '\\' !in r
    ensures file.Some? ==> forall i | 0 <= i < |r| :: file.value[i] != '\\' ==> r[i] == file.value[i]
    ensures file.Some? ==> forall i | 0 <= i < |r| :: file.value[i] == '\\' ==> r[i] == '/'
  {
    if file.Some? then SlashPath(file.value) else ""
  }

  /** `createPost`: a new post by the caller with no likes and no comments. */
  function CreatePost(s: Store, caller: Id, content: string, file: Option<string>): (r: Step<Id>)
    ensures r.reply !in s.posts
    ensures r.store.posts == s.posts[r.reply := Post(caller, content, ImagePath(file), [], [])]
    ensures r.store.users == s.users && r.store.connections == s.connections && r.store.messages == s.messages
      && r.store.notifications == s.notifications && r.store.comments == s.comments
  {
    AddPost(s, Post(caller, content, ImagePath(file), [], []))
  }

  /** `getPosts`: every post, newest first. */
  function Feed(s: Store): (r: seq<(Id, Post)>)
    ensures forall i | 0 <= i < |r| :: r[i].0 in s.posts && r[i].1 == s.posts[r[i].0]
    ensures forall k | k in s.posts :: (k, s.posts[k]) in r
    ensures forall i, j | 0 <= i < j < |r| :: r[i].0 > r[j].0
    ensures |r| == |s.posts|
  {
    var r := Descending(s.posts, (p: Post) => true, s.nextId);
    forall k | k in s.posts
      ensures (k, s.posts[k]) in r
    {
      assert k < s.nextId;
    }
    DescendingIsReversed(s.posts, (p: Post) => true, s.nextId);
    CountIsListingLength(s.posts, (p: Post) => true, s.nextId);
    assert Matching(s.posts, (p: Post) => true) == s.posts.Keys;
    r
  }

  /** `getPostById`. */
  function GetPost(s: Store, id: Id): (r: Result<Post>)
    ensures r.Ok? <==> id in s.posts
    ensures r.Err? ==> r.error == NotFound
    ensures r.Ok? ==> r.value == s.posts[id]
  {
    if id in s.posts then Ok(s.posts[id]) else Err(NotFound)
  }

  /** A created post reads back as written, and every other post reads as
      before. */
  lemma GetPostAfterCreate(s: Store, caller: Id, content: string, file: Option<string>, other: Id)
    ensures var step := CreatePost(s, caller, content, file);
      && GetPost(step.store, step.reply) == Ok(Post(caller, content, ImagePath(file), [], []))
      && (other != step.reply ==> GetPost(step.store, other) == GetPost(s, other))
  {
  }

  /** The look-up and authorship check shared by `updatePost` and
      `deletePost`: 404 for an unknown id, then 401 unless the caller wrote
      the post. */
  function Authored(s: Store, caller: Id, id: Id): (r: Result<Post>)
    ensures id !in s.posts ==> r == Err(NotFound)
    ensures id in s.posts && s.posts[id].author != caller ==> r == Err(Unauthorized)
    ensures r.Ok? <==> id in s.posts && s.posts[id].author == caller
    ensures r.Ok? ==> r.value == s.posts[id]
  {
    var p :- GetPost(s, id);
    if p.author != caller then Err(Unauthorized) else Ok(p)
  }

  /** `updatePost`: the content is replaced when a non-empty one is given and
      kept otherwise; nothing else about the post changes. */
  function UpdatePost(s: Store, caller: Id, id: Id, content: Option<string>): (r: Result<Step<Post>>)
    ensures r.Ok? <==> Authored(s, caller, id).Ok?
    ensures r.Err? ==> r.error == Authored(s, caller, id).error
    ensures r.Ok? ==>
      && r.value.reply.(content := s.posts[id].content) == s.posts[id]
      && (Truthy(content) ==> r.value.reply.content == content.value)
      && (!Truthy(content) ==> r.value.reply == s.posts[id])
      && r.value.store == s.(posts := s.posts[id := r.value.reply])
  {
    var p :- Authored(s, caller, id);
    var updated := p.(content := OrElse(content, p.content));
    Ok(Step(WithPosts(s, s.posts[id := updated]), updated))
  }

  /** `deletePost`: the post goes; its comments stay stored. */
  function DeletePost(s: Store, caller: Id, id: Id): (r: Result<Store>)
    ensures r.Ok? <==> Authored(s, caller, id).Ok?
    ensures r.Err? ==> r.error == Authored(s, caller, id).error
    ensures r.Ok? ==> r.value == s.(posts := s.posts - {id})
  {
    var _ :- Authored(s, caller, id);
    Ok(WithPosts(s, s.posts - {id}))
  }

  /** The like toggle on a list of likers: when the caller is listed every
      occurrence is filtered out, otherwise the caller is appended once.
      Nobody else's membership changes. */
  function Toggle(likes: seq<Id>, caller: Id): (r: seq<Id>)
    ensures caller in r <==> caller !in likes
    ensures forall u | u != caller :: u in r <==> u in likes
    ensures caller in likes ==> multiset(r) == multiset(likes)[caller := 0] && Subsequence(r, likes)
    ensures caller !in likes ==> |r| == |likes| + 1 && r[..|likes|] == likes && r[|likes|] == caller
    ensures Distinct(likes) ==> Distinct(r)
  {
    if caller in likes then
      PullMembership(likes, caller);
      PullDistinct(likes, caller);
      PullKeepsOrder(likes, caller);
      Pull(likes, caller)
    else
      likes + [caller]
  }

  /** Two toggles by the same user restore the set of likers. When the user
      had not liked the post, they restore the list itself. */
  lemma ToggleTwice(likes: seq<Id>, caller: Id)
    ensures forall u :: u in Toggle(Toggle(likes, caller), caller) <==> u in likes
    ensures caller !in likes ==> Toggle(Toggle(likes, caller), caller) == likes
  {
    if caller !in likes {
      var once := likes + [caller];
      var twice := Toggle(once, caller);
      assert multiset(once) == multiset(likes) + multiset{caller};
      assert multiset(twice) == multiset(likes);
      PullOfAppended(likes, caller);
    }
  }

  /** Filtering out a value that was only appended gives back the list. */
  lemma {:induction false} PullOfAppended(xs: seq<Id>, x: Id)
    requires x !in xs
    ensures Pull(xs + [x], x) == xs
  {
    if xs == [] {
      assert Pull([x], x) == Pull([], x);
    } else {
      assert (xs + [x])[1..] == xs[1..] + [x];
      PullOfAppended(xs[1..], x);
      assert xs == [xs[0]] + xs[1..];
    }
  }

  /** `likePost`: 404 for an unknown post; otherwise the caller's like is
      toggled and the reply is the post id with the new list of likers. */
  function LikePost(s: Store, caller: Id, id: Id): (r: Result<Step<(Id, seq<Id>)>>)
    ensures r.Ok? <==> id in s.posts
    ensures r.Err? ==> r.error == NotFound
    ensures r.Ok? ==>
      var likes := r.value.reply.1;
      && r.value.reply.0 == id
      && likes == Toggle(s.posts[id].likes, caller)
      && (caller in likes <==> caller !in s.posts[id].likes)
      && (forall u | u != caller :: u in likes <==> u in s.posts[id].likes)
      && r.value.store == s.(posts := s.posts[id := s.posts[id].(likes := likes)])
  {
    var p :- GetPost(s, id);
    var likes := Toggle(p.likes, caller);
    Ok(Step(WithPosts(s, s.posts[id := p.(likes := likes)]), (id, likes)))
  }

  /** Liking a post twice leaves the same set of likers as before. */
  lemma LikeTwice(s: Store, caller: Id, id: Id)
    requires LikePost(s, caller, id).Ok?
    ensures var t := LikePost(s, caller, id).value.store;
      && LikePost(t, caller, id).Ok?
      && forall u :: u in LikePost(t, caller, id).value.reply.1 <==> u in s.posts[id].likes
  {
    ToggleTwice(s.posts[id].likes, caller);
  }

  /** Changing only what a post lists, keeping both lists duplicate-free
      and the comment list unchanged, keeps the post invariants. */
  lemma PostInvariantsKept(s: Store, t: Store, id: Id, p: Post)
    requires PostListsDistinct(s.posts) && CommentsBacked(s.posts, s.comments)
    requires id in s.posts && t.posts == s.posts[id := p] && t.comments == s.comments
    requires p.comments == s.posts[id].comments && Distinct(p.likes)
    ensures PostListsDistinct(t.posts) && CommentsBacked(t.posts, t.comments)
  {
  }

  lemma CreatePostValid(s: Store, caller: Id, content: string, file: Option<string>)
    requires Valid(s)
    ensures Valid(CreatePost(s, caller, content, file).store)
  {
  }

  lemma UpdatePostValid(s: Store, caller: Id, id: Id, content: Option<string>)
    requires Valid(s) && UpdatePost(s, caller, id, content).Ok?
    ensures Valid(UpdatePost(s, caller, id, content).value.store)
  {
    var step := UpdatePost(s, caller, id, content).value;
    PostInvariantsKept(s, step.store, id, step.reply);
  }

  lemma DeletePostValid(s: Store, caller: Id, id: Id)
    requires Valid(s) && DeletePost(s, caller, id).Ok?
    ensures Valid(DeletePost(s, caller, id).value)
  {
  }

  lemma LikePostValid(s: Store, caller: Id, id: Id)
    requires Valid(s) && LikePost(s, caller, id).Ok?
    ensures Valid(LikePost(s, caller, id).value.store)
  {
    var step := LikePost(s, caller, id).value;
    PostInvariantsKept(s, step.store, id, s.posts[id].(likes := step.reply.1));
  }
}
