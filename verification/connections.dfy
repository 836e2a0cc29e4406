/** The connection controller: requests between users, their acceptance,
    rejection and removal, and the symmetric `connections` lists of users. */
module Connections {
  import opened Base
  import opened Listing
  import opened Store
  import NotificationModel
  import UserModel

  /** Some connection joins `a` and `b`, in either direction and in any
      status: the `findOne` with `$or` over both orderings. */
  predicate PairExists(s: Store, a: Id, b: Id) {
    exists c | c in s.connections :: Joins(s.connections[c], a, b)
  }

  /** `u` is the requester or the recipient of `c`. */
  predicate IsParty(c: Connection, u: Id) {
    c.requester == u || c.recipient == u
  }

  /** The notification a request creates: unread, from the requester to the
      recipient, pointing at the new connection. */
  function RequestNote(sender: Id, senderName: string, recipient: Id, c: Id): (n: Notification)
    ensures WellFormedNotification(n) && !n.read
    ensures n.recipient == recipient && n.sender == sender && n.kind == NotificationModel.ConnectionRequest
    ensures n.relatedId == Some(c) && n.relatedModel == Some(NotificationModel.ConnectionDoc)
    ensures n.content == senderName + " sent you a connection request"
  {
    NotificationModel.Create(recipient, sender, NotificationModel.ConnectionRequest,
      senderName + " sent you a connection request", Some(c), Some(NotificationModel.ConnectionDoc)).value
  }

  /** The notification an acceptance creates: unread, from the recipient
      back to the requester, pointing at the accepted connection. */
  function AcceptNote(sender: Id, senderName: string, requester: Id, c: Id): (n: Notification)
    ensures WellFormedNotification(n) && !n.read
    ensures n.recipient == requester && n.sender == sender && n.kind == NotificationModel.ConnectionAccepted
    ensures n.relatedId == Some(c) && n.relatedModel == Some(NotificationModel.ConnectionDoc)
    ensures n.content == senderName + " accepted your connection request"
  {
    NotificationModel.Create(requester, sender, NotificationModel.ConnectionAccepted,
      senderName + " accepted your connection request", Some(c), Some(NotificationModel.ConnectionDoc)).value
  }

  /** `$addToSet` on the `connections` of user `id`; a missing user is left
      alone, as `findByIdAndUpdate` of a missing id is. */
  function Link(users: map<Id, User>, id: Id, other: Id): (r: map<Id, User>)
    ensures r.Keys == users.Keys
    ensures forall u | u in users && u != id :: r[u] == users[u]
    ensures id in users ==>
      r[id] == users[id].(connections := AddToSet(users[id].connections, other))
  {
    if id in users then users[id := users[id].(connections := AddToSet(users[id].connections, other))]
    else users
  }

  /** `$pull` on the `connections` of user `id`. */
  function Unlink(users: map<Id, User>, id: Id, other: Id): (r: map<Id, User>)
    ensures r.Keys == users.Keys
    ensures forall u | u in users && u != id :: r[u] == users[u]
    ensures id in users ==> r[id] == users[id].(connections := Pull(users[id].connections, other))
  {
    if id in users then users[id := users[id].(connections := Pull(users[id].connections, other))]
    else users
  }

  /** The two `$addToSet` updates of an acceptance: `a` gets `b` and `b` gets
      `a`. Only the `connections` lists of the two users change. */
  function LinkPair(users: map<Id, User>, a: Id, b: Id): (r: map<Id, User>)
    ensures OnlyLinksDiffer(users, r)
    ensures forall u | u in users && u != a && u != b :: r[u] == users[u]
    ensures forall u, v | u in users ::
      v in r[u].connections <==> v in users[u].connections || (u == a && v == b) || (u == b && v == a)
    ensures forall u | u in users :: Distinct(users[u].connections) ==> Distinct(r[u].connections)
  {
    Link(Link(users, a, b), b, a)
  }

  /** Linking a pair that is already linked changes nothing: `$addToSet`
      leaves a list that holds the value alone. */
  lemma LinkPairLinked(users: map<Id, User>, a: Id, b: Id)
    requires a in users ==> b in users[a].connections
    requires b in users ==> a in users[b].connections
    ensures LinkPair(users, a, b) == users
  {
    var once := Link(users, a, b);
    assert once == users;
  }

  /** Linking a pair twice is linking it once. */
  lemma LinkPairIdempotent(users: map<Id, User>, a: Id, b: Id)
    ensures LinkPair(LinkPair(users, a, b), a, b) == LinkPair(users, a, b)
  {
    LinkPairLinked(LinkPair(users, a, b), a, b);
  }

  /** The two `$pull` updates of a removal: `b` leaves `a`'s list and `a`
      leaves `b`'s. Only the `connections` lists of the two users change. */
  function UnlinkPair(users: map<Id, User>, a: Id, b: Id): (r: map<Id, User>)
    ensures OnlyLinksDiffer(users, r)
    ensures forall u | u in users && u != a && u != b :: r[u] == users[u]
    ensures forall u, v | u in users ::
      v in r[u].connections <==>
        v in users[u].connections && !(u == a && v == b) && !(u == b && v == a)
    ensures forall u | u in users :: Distinct(users[u].connections) ==> Distinct(r[u].connections)
  {
    UnlinkTwice(users, a, b);
    Unlink(Unlink(users, a, b), b, a)
  }

  /** The facts about the two pulls that `UnlinkPair` promises. */
  lemma UnlinkTwice(users: map<Id, User>, a: Id, b: Id)
    ensures var r := Unlink(Unlink(users, a, b), b, a);
      && (forall u, v | u in users ::
            v in r[u].connections <==>
              v in users[u].connections && !(u == a && v == b) && !(u == b && v == a))
      && (forall u | u in users :: Distinct(users[u].connections) ==> Distinct(r[u].connections))
  {
    var r := Unlink(Unlink(users, a, b), b, a);
    forall u, v | u in users
      ensures v in r[u].connections <==>
        v in users[u].connections && !(u == a && v == b) && !(u == b && v == a)
    {
      PullMembership(users[u].connections, b);
      PullMembership(users[u].connections, a);
      PullMembership(Pull(users[u].connections, b), a);
    }
    forall u | u in users && Distinct(users[u].connections)
      ensures Distinct(r[u].connections)
    {
      PullDistinct(users[u].connections, b);
      PullDistinct(users[u].connections, a);
      PullDistinct(Pull(users[u].connections, b), a);
    }
  }

  /** `sendConnectionRequest`. The caller is a stored user: the
      authentication middleware loaded it, and the handler reads its name. */
  function SendRequest(s: Store, caller: Id, recipientId: Id): (r: Result<Step<Id>>)
    requires caller in s.users
    ensures recipientId !in s.users ==> r == Err(NotFound)
    ensures recipientId in s.users && recipientId == caller ==> r == Err(BadRequest)
    ensures recipientId in s.users && recipientId != caller && PairExists(s, caller, recipientId) ==>
      r == Err(BadRequest)
    ensures r.Ok? <==> recipientId in s.users && recipientId != caller && !PairExists(s, caller, recipientId)
    ensures r.Ok? ==>
      var t, c := r.value.store, r.value.reply;
      && c !in s.connections
      && t.connections == s.connections[c := Connection(caller, recipientId, Pending)]
      && AddsOne(s.notifications, t.notifications, RequestNote(caller, s.users[caller].name, recipientId, c))
      && t.users == s.users && t.messages == s.messages && t.posts == s.posts && t.comments == s.comments
  {
    if recipientId !in s.users then Err(NotFound)
    else if recipientId == caller then Err(BadRequest)
    else if PairExists(s, caller, recipientId) then Err(BadRequest)
    else
      var created := AddConnection(s, Connection(caller, recipientId, Pending));
      var noted := AddNotification(created.store,
        RequestNote(caller, s.users[caller].name, recipientId, created.reply));
      assert noted.reply in noted.store.notifications;
      Ok(Step(noted.store, created.reply))
  }

  /** `getConnectionRequests`: the pending connections addressed to the
      caller, in storage (insertion) order. */
  function PendingRequests(s: Store, caller: Id): (r: seq<(Id, Connection)>)
    ensures forall i | 0 <= i < |r| ::
      && r[i].0 in s.connections && r[i].1 == s.connections[r[i].0]
      && r[i].1.recipient == caller && r[i].1.status == Pending
    ensures forall c | c in s.connections && s.connections[c].recipient == caller
      && s.connections[c].status == Pending :: (c, s.connections[c]) in r
    ensures forall i, j | 0 <= i < j < |r| :: r[i].0 < r[j].0
  {
    Ascending(s.connections, (c: Connection) => c.recipient == caller && c.status == Pending, s.nextId)
  }

  /** `getConnections`: the accepted connections the caller is a party to, in
      storage order. */
  function AcceptedConnections(s: Store, caller: Id): (r: seq<(Id, Connection)>)
    ensures forall i | 0 <= i < |r| ::
      && r[i].0 in s.connections && r[i].1 == s.connections[r[i].0] && r[i].1.status == Accepted
      && (r[i].1.requester == caller || r[i].1.recipient == caller)
    ensures forall c | c in s.connections && s.connections[c].status == Accepted
      && (s.connections[c].requester == caller || s.connections[c].recipient == caller) ::
      (c, s.connections[c]) in r
    ensures forall i, j | 0 <= i < j < |r| :: r[i].0 < r[j].0
  {
    Ascending(s.connections,
      (c: Connection) => (c.requester == caller || c.recipient == caller) && c.status == Accepted,
      s.nextId)
  }

  /** `acceptConnectionRequest`. Only the recipient may accept; the previous
      status is not looked at. Both users are added to each other's list with
      set semantics and the requester is notified. */
  function Accept(s: Store, caller: Id, id: Id): (r: Result<Step<Connection>>)
    requires caller in s.users
    ensures id !in s.connections ==> r == Err(NotFound)
    ensures id in s.connections && s.connections[id].recipient != caller ==> r == Err(Unauthorized)
    ensures r.Ok? <==> id in s.connections && s.connections[id].recipient == caller
    ensures r.Ok? ==>
      var c, t := s.connections[id], r.value.store;
      && r.value.reply == c.(status := Accepted)
      && t.connections == s.connections[id := c.(status := Accepted)]
      && t.users == LinkPair(s.users, c.requester, c.recipient)
      && AddsOne(s.notifications, t.notifications, AcceptNote(caller, s.users[caller].name, c.requester, id))
      && t.messages == s.messages && t.posts == s.posts && t.comments == s.comments
  {
    if id !in s.connections then Err(NotFound)
    else
      var c := s.connections[id];
      if c.recipient != caller then Err(Unauthorized)
      else
        var accepted := c.(status := Accepted);
        var linked := WithUsers(WithConnections(s, s.connections[id := accepted]),
          LinkPair(s.users, c.requester, c.recipient));
        var noted := AddNotification(linked, AcceptNote(caller, s.users[caller].name, c.requester, id));
        assert noted.reply in noted.store.notifications;
        Ok(Step(noted.store, accepted))
  }

  /** `rejectConnectionRequest`. Only the recipient may reject. The
      connection is deleted whatever its status, and no user's list changes. */
  function Reject(s: Store, caller: Id, id: Id): (r: Result<Step<()>>)
    ensures id !in s.connections ==> r == Err(NotFound)
    ensures id in s.connections && s.connections[id].recipient != caller ==> r == Err(Unauthorized)
    ensures r.Ok? <==> id in s.connections && s.connections[id].recipient == caller
    ensures r.Ok? ==>
      var t := r.value.store;
      && t.connections.Keys == s.connections.Keys - {id}
      && (forall k | k in t.connections :: t.connections[k] == s.connections[k])
      && t.users == s.users && t.notifications == s.notifications
      && t.messages == s.messages && t.posts == s.posts && t.comments == s.comments
  {
    if id !in s.connections then Err(NotFound)
    else if s.connections[id].recipient != caller then Err(Unauthorized)
    else Ok(Step(WithConnections(s, s.connections - {id}), ()))
  }

  /** `removeConnection`. Either party may remove; the connection is deleted
      and each party is pulled from the other's list. No route leads to this
      handler. */
  function Remove(s: Store, caller: Id, id: Id): (r: Result<Step<()>>)
    ensures id !in s.connections ==> r == Err(NotFound)
    ensures id in s.connections && !IsParty(s.connections[id], caller) ==> r == Err(Unauthorized)
    ensures r.Ok? <==> id in s.connections && IsParty(s.connections[id], caller)
    ensures r.Ok? ==>
      var c, t := s.connections[id], r.value.store;
      && t.connections.Keys == s.connections.Keys - {id}
      && (forall k | k in t.connections :: t.connections[k] == s.connections[k])
      && t.users == UnlinkPair(s.users, c.requester, c.recipient)
      && t.notifications == s.notifications
      && t.messages == s.messages && t.posts == s.posts && t.comments == s.comments
  {
    if id !in s.connections then Err(NotFound)
    else
      var c := s.connections[id];
      if !IsParty(c, caller) then Err(Unauthorized)
      else
        var users := UnlinkPair(s.users, c.requester, c.recipient);
        Ok(Step(WithUsers(WithConnections(s, s.connections - {id}), users), ()))
  }
}
