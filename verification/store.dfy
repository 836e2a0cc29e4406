/** The document store the controllers read and write: one map per
    collection, keyed by document id, and the counter that issues ids.
    Connection, Message, Post and Comment are described by the fields the
    controllers read and write. */
module Store {
  import opened Base
  import opened Listing
  import UserModel
  import NotificationModel

  type User = UserModel.User
  type Notification = NotificationModel.Notification

  datatype ConnStatus = Pending | Accepted

  /** A connection request from `requester` to `recipient`. */
  datatype Connection = Connection(requester: Id, recipient: Id, status: ConnStatus)

  /** A direct message; `read` starts false. */
  datatype Message = Message(sender: Id, recipient: Id, content: string, read: bool)

  /** A post with the ids of its likers and of its comments. */
  datatype Post = Post(author: Id, content: string, image: string, likes: seq<Id>, comments: seq<Id>)

  datatype Comment = Comment(post: Id, text: string, author: Id)

  datatype Documents = Documents(
    users: map<Id, User>,
    connections: map<Id, Connection>,
    messages: map<Id, Message>,
    notifications: map<Id, Notification>,
    posts: map<Id, Post>,
    comments: map<Id, Comment>,
    nextId: nat)

  /** Every stored id was issued by the counter, so the counter's value is a
      fresh id in every collection. */
  predicate IdsIssued(d: Documents) {
    && (forall k | k in d.users :: k < d.nextId)
    && (forall k | k in d.connections :: k < d.nextId)
    && (forall k | k in d.messages :: k < d.nextId)
    && (forall k | k in d.notifications :: k < d.nextId)
    && (forall k | k in d.posts :: k < d.nextId)
    && (forall k | k in d.comments :: k < d.nextId)
  }

  /** The store. Ids are never reused, which is what the database's id
      generator guarantees. */
  type Store = d: Documents | IdsIssued(d)
    witness Documents(map[], map[], map[], map[], map[], map[], 0)

  const Empty: Store := Documents(map[], map[], map[], map[], map[], map[], 0)

  /** The store after a handler ran, and what the handler sent back. */
  datatype Step<T> = Step(store: Store, reply: T)

  /** `Model.create`: the document is stored under the counter's id, which
      no collection uses yet, and the counter moves on. */
  function AddConnection(s: Store, c: Connection): (r: Step<Id>)
    ensures r.reply == s.nextId && r.reply !in s.connections
  {
    Step(s.(connections := s.connections[s.nextId := c], nextId := s.nextId + 1), s.nextId)
  }

  function AddMessage(s: Store, m: Message): (r: Step<Id>)
    ensures r.reply == s.nextId && r.reply !in s.messages
  {
    Step(s.(messages := s.messages[s.nextId := m], nextId := s.nextId + 1), s.nextId)
  }

  function AddNotification(s: Store, n: Notification): (r: Step<Id>)
    ensures r.reply == s.nextId && r.reply !in s.notifications
  {
    Step(s.(notifications := s.notifications[s.nextId := n], nextId := s.nextId + 1), s.nextId)
  }

  function AddPost(s: Store, p: Post): (r: Step<Id>)
    ensures r.reply == s.nextId && r.reply !in s.posts
  {
    Step(s.(posts := s.posts[s.nextId := p], nextId := s.nextId + 1), s.nextId)
  }

  function AddComment(s: Store, c: Comment): (r: Step<Id>)
    ensures r.reply == s.nextId && r.reply !in s.comments
  {
    Step(s.(comments := s.comments[s.nextId := c], nextId := s.nextId + 1), s.nextId)
  }

  /** Updates and deletions: the collection is replaced by one over stored
      ids only. */
  function WithUsers(s: Store, users: map<Id, User>): (r: Store)
    requires users.Keys <= s.users.Keys
  {
    s.(users := users)
  }

  function WithConnections(s: Store, connections: map<Id, Connection>): (r: Store)
    requires connections.Keys <= s.connections.Keys
  {
    s.(connections := connections)
  }

  function WithMessages(s: Store, messages: map<Id, Message>): (r: Store)
    requires messages.Keys <= s.messages.Keys
  {
    s.(messages := messages)
  }

  function WithNotifications(s: Store, notifications: map<Id, Notification>): (r: Store)
    requires notifications.Keys <= s.notifications.Keys
  {
    s.(notifications := notifications)
  }

  function WithPosts(s: Store, posts: map<Id, Post>): (r: Store)
    requires posts.Keys <= s.posts.Keys
  {
    s.(posts := posts)
  }

  function WithComments(s: Store, comments: map<Id, Comment>): (r: Store)
    requires comments.Keys <= s.comments.Keys
  {
    s.(comments := comments)
  }

  /** `c` joins `a` and `b`, in either direction. */
  predicate Joins(c: Connection, a: Id, b: Id) {
    (c.requester == a && c.recipient == b) || (c.requester == b && c.recipient == a)
  }

  /** Both parties of every connection are stored users. */
  predicate PartiesExist(users: map<Id, User>, connections: map<Id, Connection>) {
    forall c | c in connections :: connections[c].requester in users && connections[c].recipient in users
  }

  /** `connections` lists name stored users only, and symmetrically: when `b`
      is in `a`'s list, `a` is in `b`'s. */
  predicate LinksSymmetric(users: map<Id, User>) {
    forall a, b | a in users && b in users[a].connections :: b in users && a in users[b].connections
  }

  /** No `connections` list names anyone twice. */
  predicate LinksDistinct(users: map<Id, User>) {
    forall a | a in users :: Distinct(users[a].connections)
  }

  /** At most one connection document for every unordered pair of users. */
  predicate OnePerPair(connections: map<Id, Connection>) {
    forall c, d | c in connections && d in connections && c != d ::
      !Joins(connections[c], connections[d].requester, connections[d].recipient)
  }

  /** Every user satisfies the User schema and the email index is unique. */
  predicate UsersConform(users: map<Id, User>) {
    && UserModel.AllConform(users)
    && UserModel.EmailsUnique(users)
  }

  /** A notification satisfies the schema and points, through `relatedId`,
      into the collection its kind belongs to. */
  predicate WellFormedNotification(n: Notification) {
    && NotificationModel.Conforms(n)
    && n.relatedId.Some?
    && n.relatedModel == Some(NotificationModel.ModelFor(n.kind))
  }

  predicate NotificationsConform(notifications: map<Id, Notification>) {
    forall n | n in notifications :: WellFormedNotification(notifications[n])
  }

  /** `n` is an unread message notification. */
  predicate IsUnreadNotice(n: Notification) {
    n.kind == NotificationModel.NewMessage && !n.read
  }

  /** Some unread message notification to `recipient` from `sender` is
      stored: the `findOne` of `sendMessage`. */
  predicate HasUnreadNotice(notifications: map<Id, Notification>, recipient: Id, sender: Id) {
    exists k | k in notifications ::
      IsUnreadNotice(notifications[k]) && notifications[k].recipient == recipient && notifications[k].sender == sender
  }

  /** At most one unread message notification per sender and recipient. */
  predicate NoticesDeduplicated(notifications: map<Id, Notification>) {
    forall a, b | a in notifications && b in notifications && a != b
      && IsUnreadNotice(notifications[a]) && IsUnreadNotice(notifications[b]) ::
      notifications[a].recipient != notifications[b].recipient || notifications[a].sender != notifications[b].sender
  }

  /** Nobody likes a post twice and no comment id is listed twice. */
  predicate PostListsDistinct(posts: map<Id, Post>) {
    forall p | p in posts :: Distinct(posts[p].likes) && Distinct(posts[p].comments)
  }

  /** Every comment id a post lists belongs to a stored comment on that post. */
  predicate CommentsBacked(posts: map<Id, Post>, comments: map<Id, Comment>) {
    forall p, c | p in posts && c in posts[p].comments :: c in comments && comments[c].post == p
  }

  /** The invariants every handler preserves. */
  predicate Valid(s: Store) {
    && PartiesExist(s.users, s.connections)
    && LinksSymmetric(s.users)
    && LinksDistinct(s.users)
    && OnePerPair(s.connections)
    && UsersConform(s.users)
    && NotificationsConform(s.notifications)
    && NoticesDeduplicated(s.notifications)
    && PostListsDistinct(s.posts)
    && CommentsBacked(s.posts, s.comments)
  }

  /** The empty store satisfies every invariant. */
  lemma EmptyValid()
    ensures Valid(Empty)
  {
  }

  /** `after` differs from `before` at most in users' `connections` lists. */
  predicate OnlyLinksDiffer(before: map<Id, User>, after: map<Id, User>) {
    && after.Keys == before.Keys
    && forall u | u in before :: after[u].(connections := before[u].connections) == before[u]
  }

  /** Changing only `connections` lists keeps users conforming and emails
      unique. */
  lemma ConformsWhenOnlyLinksDiffer(before: map<Id, User>, after: map<Id, User>)
    requires OnlyLinksDiffer(before, after) && UsersConform(before)
    ensures UsersConform(after)
  {
    SameNamesWhenOnlyLinksDiffer(before, after);
    assert forall u | u in after :: UserModel.Conforms(after[u]) by {
      forall u | u in after
        ensures UserModel.Conforms(after[u])
      {
        assert UserModel.Conforms(before[u]);
      }
    }
    assert UserModel.EmailsUnique(after) by {
      forall a, b | a in after && b in after && a != b
        ensures after[a].email != after[b].email
      {
        assert before[a].email != before[b].email;
      }
    }
  }

  lemma SameNamesWhenOnlyLinksDiffer(before: map<Id, User>, after: map<Id, User>)
    requires OnlyLinksDiffer(before, after)
    ensures forall u | u in after :: after[u].name == before[u].name && after[u].email == before[u].email
  {
    forall u | u in after
      ensures after[u].name == before[u].name && after[u].email == before[u].email
    {
      assert after[u].(connections := before[u].connections) == before[u];
    }
  }

  /** Adding a connection between two stored users keeps every party stored. */
  lemma PartiesExistAdd(users: map<Id, User>, connections: map<Id, Connection>, k: Id, c: Connection)
    requires PartiesExist(users, connections) && c.requester in users && c.recipient in users
    ensures PartiesExist(users, connections[k := c])
  {
  }

  /** Changing a stored connection's status keeps every party stored. */
  lemma PartiesExistRestatus(users: map<Id, User>, connections: map<Id, Connection>, k: Id, status: ConnStatus)
    requires PartiesExist(users, connections) && k in connections
    ensures PartiesExist(users, connections[k := connections[k].(status := status)])
  {
  }

  /** Deleting a connection keeps every remaining party stored. */
  lemma PartiesExistRemove(users: map<Id, User>, connections: map<Id, Connection>, k: Id)
    requires PartiesExist(users, connections)
    ensures PartiesExist(users, connections - {k})
  {
  }

  /** Keeping every stored user keeps every party stored. */
  lemma PartiesExistKeepUsers(users: map<Id, User>, after: map<Id, User>, connections: map<Id, Connection>)
    requires PartiesExist(users, connections) && users.Keys <= after.Keys
    ensures PartiesExist(after, connections)
  {
  }

  /** Adding a well-formed notification keeps the collection well formed. */
  lemma NotificationsConformAdd(notifications: map<Id, Notification>, k: Id, n: Notification)
    requires NotificationsConform(notifications) && WellFormedNotification(n)
    ensures NotificationsConform(notifications[k := n])
  {
  }

  /** The map `after` is `before` with exactly one new document `v`. */
  ghost predicate AddsOne<T>(before: map<Id, T>, after: map<Id, T>, v: T) {
    exists k | k in after :: k !in before && after == before[k := v]
  }

  /** Adding one well-formed notification keeps the collection well formed,
      and keeps one unread message notification per pair unless it is a
      second one for its pair. */
  lemma NotificationsAddsOne(before: map<Id, Notification>, after: map<Id, Notification>, n: Notification)
    requires NotificationsConform(before) && NoticesDeduplicated(before)
    requires WellFormedNotification(n) && AddsOne(before, after, n)
    requires IsUnreadNotice(n) ==> !HasUnreadNotice(before, n.recipient, n.sender)
    ensures NotificationsConform(after) && NoticesDeduplicated(after)
  {
    var k :| k in after && k !in before && after == before[k := n];
    NotificationsConformAdd(before, k, n);
    forall a, b | a in after && b in after && a != b && IsUnreadNotice(after[a]) && IsUnreadNotice(after[b])
      ensures after[a].recipient != after[b].recipient || after[a].sender != after[b].sender
    {
      if a == k {
        assert !(before[b].recipient == n.recipient && before[b].sender == n.sender);
      } else if b == k {
        assert !(before[a].recipient == n.recipient && before[a].sender == n.sender);
      }
    }
  }

  /** A collection that gained one document has one more document. */
  lemma AddsOneSize<T>(before: map<Id, T>, after: map<Id, T>, v: T)
    requires AddsOne(before, after, v)
    ensures |after| == |before| + 1 && before.Keys <= after.Keys
  {
    var k :| k in after && k !in before && after == before[k := v];
    assert after.Keys == before.Keys + {k};
  }

  /** Storing a document's own value again changes nothing. */
  lemma UpdateSame<T>(m: map<Id, T>, k: Id)
    requires k in m
    ensures m[k := m[k]] == m
  {
  }
}
