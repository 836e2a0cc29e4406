/** What the connection handlers promise across calls: every handler keeps
    the store's invariants (in particular the symmetry of `connections` and
    one connection per pair), acceptance is idempotent on the lists, a
    second request for the same pair is refused, and rejection of an
    accepted connection leaves the lists pointing at each other. */
module ConnectionProperties {
  import opened Base
  import opened Listing
  import opened Store
  import opened Connections
  import NotificationModel
  import UserModel

  /** Adding a connection for a pair that no connection joins yet keeps one
      connection per pair. */
  lemma OnePerPairAdd(connections: map<Id, Connection>, k: Id, c: Connection)
    requires OnePerPair(connections) && k !in connections
    requires forall d | d in connections :: !Joins(connections[d], c.requester, c.recipient)
    ensures OnePerPair(connections[k := c])
  {
  }

  /** Changing a connection's status keeps one connection per pair. */
  lemma OnePerPairRestatus(connections: map<Id, Connection>, k: Id, status: ConnStatus)
    requires OnePerPair(connections) && k in connections
    ensures OnePerPair(connections[k := connections[k].(status := status)])
  {
    var after := connections[k := connections[k].(status := status)];
    forall c, d | c in after && d in after && c != d
      ensures !Joins(after[c], after[d].requester, after[d].recipient)
    {
      assert !Joins(connections[c], connections[d].requester, connections[d].recipient);
    }
  }

  /** The two `$addToSet` updates of an acceptance keep the lists symmetric
      when both users exist. */
  lemma LinkPairSymmetric(users: map<Id, User>, a: Id, b: Id)
    requires LinksSymmetric(users) && a in users && b in users
    ensures LinksSymmetric(LinkPair(users, a, b))
  {
    var after := LinkPair(users, a, b);
    forall u, v | u in after && v in after[u].connections
      ensures v in after && u in after[v].connections
    {
      if v in users[u].connections {
        assert v in users && u in users[v].connections;
      }
    }
  }

  /** The two `$pull` updates of a removal keep the lists symmetric. */
  lemma UnlinkPairSymmetric(users: map<Id, User>, a: Id, b: Id)
    requires LinksSymmetric(users)
    ensures LinksSymmetric(UnlinkPair(users, a, b))
  {
    var after := UnlinkPair(users, a, b);
    forall u, v | u in after && v in after[u].connections
      ensures v in after && u in after[v].connections
    {
      assert v in users[u].connections;
    }
  }

  /** Adding a connection between two stored users that nothing joins yet,
      together with a well-formed notification, keeps every invariant. */
  lemma ValidAfterNewConnection(s: Store, t: Store, c: Id, conn: Connection, n: Notification)
    requires Valid(s)
    requires t.users == s.users && t.posts == s.posts && t.comments == s.comments
    requires c !in s.connections && t.connections == s.connections[c := conn]
    requires conn.requester in s.users && conn.recipient in s.users
    requires forall d | d in s.connections :: !Joins(s.connections[d], conn.requester, conn.recipient)
    requires AddsOne(s.notifications, t.notifications, n) && WellFormedNotification(n)
    requires n.kind != NotificationModel.NewMessage
    ensures Valid(t)
  {
    OnePerPairAdd(s.connections, c, conn);
    NotificationsAddsOne(s.notifications, t.notifications, n);
    PartiesExistAdd(s.users, s.connections, c, conn);
  }

  /** A successful request keeps every invariant. */
  lemma SendRequestValid(s: Store, caller: Id, recipientId: Id)
    requires Valid(s) && caller in s.users
    requires SendRequest(s, caller, recipientId).Ok?
    ensures Valid(SendRequest(s, caller, recipientId).value.store)
  {
    var step := SendRequest(s, caller, recipientId).value;
    var n := RequestNote(caller, s.users[caller].name, recipientId, step.reply);
    assert !PairExists(s, caller, recipientId);
    ValidAfterNewConnection(s, step.store, step.reply, Connection(caller, recipientId, Pending), n);
  }

  /** Acceptance keeps users conforming: only `connections` lists change. */
  lemma AcceptKeepsUsersConform(s: Store, caller: Id, id: Id)
    requires UsersConform(s.users) && caller in s.users
    requires Accept(s, caller, id).Ok?
    ensures UsersConform(Accept(s, caller, id).value.store.users)
  {
    ConformsWhenOnlyLinksDiffer(s.users, Accept(s, caller, id).value.store.users);
  }

  /** Acceptance keeps the lists symmetric: both directions are added in the
      same step. */
  lemma AcceptKeepsLinksSymmetric(s: Store, caller: Id, id: Id)
    requires LinksSymmetric(s.users) && PartiesExist(s.users, s.connections) && caller in s.users
    requires Accept(s, caller, id).Ok?
    ensures LinksSymmetric(Accept(s, caller, id).value.store.users)
  {
    var c := s.connections[id];
    LinkPairSymmetric(s.users, c.requester, c.recipient);
  }

  /** Acceptance keeps the lists free of duplicates: `$addToSet` adds a value
      only when it is missing. */
  lemma AcceptKeepsLinksDistinct(s: Store, caller: Id, id: Id)
    requires LinksDistinct(s.users) && caller in s.users
    requires Accept(s, caller, id).Ok?
    ensures LinksDistinct(Accept(s, caller, id).value.store.users)
  {
  }

  /** Acceptance changes a status, not a pair, so pairs stay unique and both
      parties stay stored. */
  lemma AcceptKeepsConnections(s: Store, caller: Id, id: Id)
    requires OnePerPair(s.connections) && PartiesExist(s.users, s.connections) && caller in s.users
    requires Accept(s, caller, id).Ok?
    ensures OnePerPair(Accept(s, caller, id).value.store.connections)
    ensures PartiesExist(Accept(s, caller, id).value.store.users, Accept(s, caller, id).value.store.connections)
  {
    var t := Accept(s, caller, id).value.store;
    OnePerPairRestatus(s.connections, id, Accepted);
    PartiesExistRestatus(s.users, s.connections, id, Accepted);
    PartiesExistKeepUsers(s.users, t.users, t.connections);
  }

  /** The acceptance notification is well formed and not a message
      notification. */
  lemma AcceptKeepsNotifications(s: Store, caller: Id, id: Id)
    requires NotificationsConform(s.notifications) && NoticesDeduplicated(s.notifications) && caller in s.users
    requires Accept(s, caller, id).Ok?
    ensures NotificationsConform(Accept(s, caller, id).value.store.notifications)
    ensures NoticesDeduplicated(Accept(s, caller, id).value.store.notifications)
  {
    NotificationsAddsOne(s.notifications, Accept(s, caller, id).value.store.notifications,
      AcceptNote(caller, s.users[caller].name, s.connections[id].requester, id));
  }

  /** A successful acceptance keeps every invariant; in particular both users
      end up in each other's list and the lists stay symmetric. */
  lemma AcceptValid(s: Store, caller: Id, id: Id)
    requires Valid(s) && caller in s.users
    requires Accept(s, caller, id).Ok?
    ensures Valid(Accept(s, caller, id).value.store)
  {
    AcceptKeepsUsersConform(s, caller, id);
    AcceptKeepsLinksSymmetric(s, caller, id);
    AcceptKeepsLinksDistinct(s, caller, id);
    AcceptKeepsConnections(s, caller, id);
    AcceptKeepsNotifications(s, caller, id);
  }

  /** A successful rejection keeps every invariant. */
  lemma RejectValid(s: Store, caller: Id, id: Id)
    requires Valid(s)
    requires Reject(s, caller, id).Ok?
    ensures Valid(Reject(s, caller, id).value.store)
  {
    var t := Reject(s, caller, id).value.store;
    assert t.connections == s.connections - {id};
    PartiesExistRemove(s.users, s.connections, id);
  }

  /** A successful removal keeps every invariant; in particular the lists stay
      symmetric, because both pulls happen in the same step. */
  lemma RemoveValid(s: Store, caller: Id, id: Id)
    requires Valid(s)
    requires Remove(s, caller, id).Ok?
    ensures Valid(Remove(s, caller, id).value.store)
  {
    var t := Remove(s, caller, id).value.store;
    var c := s.connections[id];
    assert t.users == UnlinkPair(s.users, c.requester, c.recipient);
    assert t.connections == s.connections - {id};
    UnlinkPairSymmetric(s.users, c.requester, c.recipient);
    ConformsWhenOnlyLinksDiffer(s.users, t.users);
    PartiesExistRemove(s.users, s.connections, id);
    PartiesExistKeepUsers(s.users, t.users, t.connections);
  }

  /** After a successful request the same pair cannot request again, in
      either direction: the second attempt is a 400. */
  lemma SecondRequestRefused(s: Store, caller: Id, recipientId: Id)
    requires caller in s.users
    requires SendRequest(s, caller, recipientId).Ok?
    ensures SendRequest(SendRequest(s, caller, recipientId).value.store, caller, recipientId) == Err(BadRequest)
    ensures SendRequest(SendRequest(s, caller, recipientId).value.store, recipientId, caller) == Err(BadRequest)
  {
    var step := SendRequest(s, caller, recipientId).value;
    assert Joins(step.store.connections[step.reply], caller, recipientId);
    assert PairExists(step.store, caller, recipientId);
    assert PairExists(step.store, recipientId, caller) by {
      assert Joins(step.store.connections[step.reply], recipientId, caller);
    }
  }

  /** Accepting the same connection twice leaves the users and connections
      as after the first acceptance. */
  lemma AcceptTwice(s: Store, caller: Id, id: Id)
    requires caller in s.users
    requires Accept(s, caller, id).Ok?
    ensures var t := Accept(s, caller, id).value.store;
      && Accept(t, caller, id).Ok?
      && Accept(t, caller, id).value.store.users == t.users
      && Accept(t, caller, id).value.store.connections == t.connections
  {
    var c := s.connections[id];
    var t := Accept(s, caller, id).value.store;
    var accepted := c.(status := Accepted);
    assert t.connections[id] == accepted && accepted.(status := Accepted) == accepted;
    UpdateSame(t.connections, id);
    LinkPairIdempotent(s.users, c.requester, c.recipient);
  }

  /** Every successful acceptance adds one notification, the second one of
      the same connection included. */
  lemma AcceptNotifiesEachTime(s: Store, caller: Id, id: Id)
    requires caller in s.users
    requires Accept(s, caller, id).Ok?
    ensures |Accept(s, caller, id).value.store.notifications| == |s.notifications| + 1
  {
    AddsOneSize(s.notifications, Accept(s, caller, id).value.store.notifications,
      AcceptNote(caller, s.users[caller].name, s.connections[id].requester, id));
  }

  /** Rejecting an accepted connection deletes it but leaves both users in
      each other's `connections`: afterwards the lists name a connection that
      no document backs. */
  lemma RejectAcceptedLeavesLinks(s: Store, caller: Id, id: Id)
    requires Valid(s)
    requires id in s.connections && s.connections[id].recipient == caller
    requires s.connections[id].status == Accepted
    requires caller in s.users[s.connections[id].requester].connections
    ensures var t, c := Reject(s, caller, id).value.store, s.connections[id];
      && caller in t.users[c.requester].connections
      && c.requester in t.users[caller].connections
      && !PairExists(t, c.requester, caller)
  {
  }
}
