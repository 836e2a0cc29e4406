/** The message controller: sending a message (with the rule that keeps one
    unread message notification per sender and recipient), reading a thread,
    the list of conversations and the unread count. */
module Messages {
  import opened Base
  import opened Listing
  import opened Store
  import opened Text
  import NotificationModel

  /** The message goes between `a` and `b`, in either direction. */
  predicate Between(m: Message, a: Id, b: Id) {
    (m.sender == a && m.recipient == b) || (m.sender == b && m.recipient == a)
  }

  /** The notification a message creates: unread, from the sender to the
      recipient, pointing at the message, and quoting at most the first 50
      characters of it. */
  function MessageNote(sender: Id, senderName: string, recipient: Id, m: Id, content: string): (n: Notification)
    ensures WellFormedNotification(n) && IsUnreadNotice(n)
    ensures n.recipient == recipient && n.sender == sender
    ensures n.relatedId == Some(m) && n.relatedModel == Some(NotificationModel.MessageDoc)
    ensures n.content == "New message from " + senderName + ": " + Preview(content)
  {
    NotificationModel.Create(recipient, sender, NotificationModel.NewMessage,
      "New message from " + senderName + ": " + Preview(content), Some(m), Some(NotificationModel.MessageDoc)).value
  }

  /** `sendMessage`. The recipient is looked up first, then a message to
      oneself is refused. The message is stored unread; a notification is
      added only when the recipient has no unread message notification from
      the caller yet. */
  function Send(s: Store, caller: Id, recipientId: Id, content: string): (r: Result<Step<Id>>)
    requires caller in s.users
    ensures recipientId !in s.users ==> r == Err(NotFound)
    ensures recipientId in s.users && recipientId == caller ==> r == Err(BadRequest)
    ensures r.Ok? <==> recipientId in s.users && recipientId != caller
    ensures r.Ok? ==>
      var t, m := r.value.store, r.value.reply;
      && m !in s.messages
      && t.messages == s.messages[m := Message(caller, recipientId, content, false)]
      && t.users == s.users && t.connections == s.connections && t.posts == s.posts && t.comments == s.comments
    ensures r.Ok? && HasUnreadNotice(s.notifications, recipientId, caller) ==>
      r.value.store.notifications == s.notifications
    ensures r.Ok? && !HasUnreadNotice(s.notifications, recipientId, caller) ==>
      AddsOne(s.notifications, r.value.store.notifications,
        MessageNote(caller, s.users[caller].name, recipientId, r.value.reply, content))
  {
    if recipientId !in s.users then Err(NotFound)
    else if recipientId == caller then Err(BadRequest)
    else
      var created := AddMessage(s, Message(caller, recipientId, content, false));
      if HasUnreadNotice(created.store.notifications, recipientId, caller) then Ok(created)
      else
        var noted := AddNotification(created.store,
          MessageNote(caller, s.users[caller].name, recipientId, created.reply, content));
        assert noted.reply in noted.store.notifications;
        Ok(Step(noted.store, created.reply))
  }

  /** `updateMany({recipient: caller, sender: peer, read: false}, {read: true})`:
      every message from `peer` to `caller` becomes read; nothing else
      changes. */
  function MarkThreadRead(messages: map<Id, Message>, caller: Id, peer: Id): (r: map<Id, Message>)
    ensures r.Keys == messages.Keys
    ensures forall k | k in messages :: r[k].(read := messages[k].read) == messages[k]
    ensures forall k | k in messages ::
      r[k].read <==> messages[k].read || (messages[k].sender == peer && messages[k].recipient == caller)
  {
    map k | k in messages ::
      if messages[k].sender == peer && messages[k].recipient == caller then messages[k].(read := true)
      else messages[k]
  }

  /** `getMessagesBetweenUsers`. The messages between the caller and the peer,
      oldest first and with the read flags they had before the call; then
      the peer's messages to the caller are marked read. */
  function Thread(s: Store, caller: Id, peer: Id): (r: Result<Step<seq<(Id, Message)>>>)
    ensures peer !in s.users ==> r == Err(NotFound)
    ensures r.Ok? <==> peer in s.users
    ensures r.Ok? ==>
      var listed := r.value.reply;
      && (forall i | 0 <= i < |listed| ::
            listed[i].0 in s.messages && listed[i].1 == s.messages[listed[i].0] && Between(listed[i].1, caller, peer))
      && (forall k | k in s.messages && Between(s.messages[k], caller, peer) :: (k, s.messages[k]) in listed)
      && (forall i, j | 0 <= i < j < |listed| :: listed[i].0 < listed[j].0)
    ensures r.Ok? ==> r.value.store == s.(messages := MarkThreadRead(s.messages, caller, peer))
  {
    if peer !in s.users then Err(NotFound)
    else
      var listed := Ascending(s.messages, (m: Message) => Between(m, caller, peer), s.nextId);
      Ok(Step(WithMessages(s, MarkThreadRead(s.messages, caller, peer)), listed))
  }

  /** The other party of every message the caller sent or received; never the
      caller. */
  function Peers(messages: map<Id, Message>, caller: Id): (r: set<Id>)
    ensures caller !in r
    ensures forall k | k in messages && messages[k].sender == caller && messages[k].recipient != caller ::
      messages[k].recipient in r
    ensures forall k | k in messages && messages[k].recipient == caller && messages[k].sender != caller ::
      messages[k].sender in r
    ensures forall u | u in r :: exists k | k in messages :: Between(messages[k], caller, u)
  {
    var sentTo := set k | k in messages && messages[k].sender == caller :: messages[k].recipient;
    var heardFrom := set k | k in messages && messages[k].recipient == caller :: messages[k].sender;
    var r := sentTo + heardFrom - {caller};
    assert forall u | u in r :: exists k | k in messages :: Between(messages[k], caller, u) by {
      forall u | u in r
        ensures exists k | k in messages :: Between(messages[k], caller, u)
      {
        if u in sentTo {
          var k :| k in messages && messages[k].sender == caller && messages[k].recipient == u;
          assert Between(messages[k], caller, u);
        } else {
          var k :| k in messages && messages[k].recipient == caller && messages[k].sender == u;
          assert Between(messages[k], caller, u);
        }
      }
    }
    r
  }

  /** `getUserConversations`: the stored users among the caller's peers, in
      storage order. */
  function Conversations(s: Store, caller: Id): (r: seq<(Id, User)>)
    ensures forall i | 0 <= i < |r| ::
      r[i].0 in s.users && r[i].1 == s.users[r[i].0] && r[i].0 in Peers(s.messages, caller)
    ensures forall u | u in s.users && u in Peers(s.messages, caller) :: (u, s.users[u]) in r
    ensures forall i, j | 0 <= i < j < |r| :: r[i].0 < r[j].0
  {
    var peers := Peers(s.messages, caller);
    var found := map u | u in s.users && u in peers :: s.users[u];
    var r := Ascending(found, (u: User) => true, s.nextId);
    forall u | u in s.users && u in peers
      ensures (u, s.users[u]) in r
    {
      assert u in found && found[u] == s.users[u] && u < s.nextId;
    }
    r
  }

  /** The unread messages addressed to `caller`. */
  function UnreadIds(messages: map<Id, Message>, caller: Id): set<Id> {
    set k | k in messages && messages[k].recipient == caller && !messages[k].read
  }

  /** The unread messages from `peer` to `caller`. */
  function UnreadFrom(messages: map<Id, Message>, caller: Id, peer: Id): set<Id> {
    set k | k in messages && messages[k].recipient == caller && messages[k].sender == peer && !messages[k].read
  }

  /** The filter `{recipient: caller, read: false}`. */
  function UnreadFilter(caller: Id): Message -> bool {
    (m: Message) => m.recipient == caller && !m.read
  }

  /** `getUnreadMessageCount`: `countDocuments({recipient: caller, read: false})`.
      It is the number of unread messages addressed to the caller, which is
      also the length of the listing `find` returns for the same filter. */
  function UnreadCount(s: Store, caller: Id): (r: nat)
    ensures r == |UnreadIds(s.messages, caller)|
    ensures r == |Ascending(s.messages, UnreadFilter(caller), s.nextId)|
  {
    CountIsListingLength(s.messages, UnreadFilter(caller), s.nextId);
    assert Matching(s.messages, UnreadFilter(caller)) == UnreadIds(s.messages, caller);
    Count(s.messages, UnreadFilter(caller))
  }

  /** Reading a thread lowers the unread count by exactly the number of unread
      messages the peer had sent to the caller. */
  lemma ThreadLowersUnread(s: Store, caller: Id, peer: Id)
    requires Thread(s, caller, peer).Ok?
    ensures UnreadCount(Thread(s, caller, peer).value.store, caller)
      == UnreadCount(s, caller) - |UnreadFrom(s.messages, caller, peer)|
  {
    var after := MarkThreadRead(s.messages, caller, peer);
    var before := UnreadIds(s.messages, caller);
    var fromPeer := UnreadFrom(s.messages, caller, peer);
    assert UnreadIds(after, caller) == before - fromPeer;
    assert fromPeer <= before;
    SetDifferenceSize(before, fromPeer);
  }

  /** Removing a subset removes exactly its size. */
  lemma SetDifferenceSize(a: set<Id>, b: set<Id>)
    requires b <= a
    ensures |a - b| == |a| - |b|
  {
    assert a == (a - b) + b;
  }

  /** After a thread read the peer has no unread message to the caller left,
      and every message outside that direction is as it was. */
  lemma ThreadReadsPeer(s: Store, caller: Id, peer: Id)
    requires Thread(s, caller, peer).Ok?
    ensures var t := Thread(s, caller, peer).value.store;
      && UnreadFrom(t.messages, caller, peer) == {}
      && forall k | k in s.messages && !(s.messages[k].sender == peer && s.messages[k].recipient == caller) ::
           t.messages[k] == s.messages[k]
  {
    var t := Thread(s, caller, peer).value.store;
    assert forall k | k in s.messages && !(s.messages[k].sender == peer && s.messages[k].recipient == caller) ::
      t.messages[k] == s.messages[k];
  }

  /** Reading the same thread twice changes the store no more than reading it
      once. */
  lemma ThreadTwice(s: Store, caller: Id, peer: Id)
    requires Thread(s, caller, peer).Ok?
    ensures var t := Thread(s, caller, peer).value.store;
      Thread(t, caller, peer).Ok? && Thread(t, caller, peer).value.store == t
  {
    MarkThreadReadTwice(s.messages, caller, peer);
  }

  /** Marking a thread read a second time changes nothing. */
  lemma MarkThreadReadTwice(messages: map<Id, Message>, caller: Id, peer: Id)
    ensures var once := MarkThreadRead(messages, caller, peer);
      MarkThreadRead(once, caller, peer) == once
  {
    var once := MarkThreadRead(messages, caller, peer);
    var twice := MarkThreadRead(once, caller, peer);
    forall k | k in once
      ensures twice[k] == once[k]
    {
      assert twice[k].(read := once[k].read) == once[k];
    }
  }

  /** After a successful send the recipient has exactly one unread message
      notification from the caller: the old one if there was one, otherwise
      the new one. */
  lemma SendLeavesOneNotice(s: Store, caller: Id, recipientId: Id, content: string)
    requires NotificationsConform(s.notifications) && NoticesDeduplicated(s.notifications)
    requires caller in s.users && Send(s, caller, recipientId, content).Ok?
    ensures var t := Send(s, caller, recipientId, content).value.store;
      && HasUnreadNotice(t.notifications, recipientId, caller)
      && NotificationsConform(t.notifications) && NoticesDeduplicated(t.notifications)
  {
    var step := Send(s, caller, recipientId, content).value;
    if !HasUnreadNotice(s.notifications, recipientId, caller) {
      var n := MessageNote(caller, s.users[caller].name, recipientId, step.reply, content);
      NotificationsAddsOne(s.notifications, step.store.notifications, n);
      var k :| k in step.store.notifications && k !in s.notifications
        && step.store.notifications == s.notifications[k := n];
      assert step.store.notifications[k] == n;
    }
  }

  /** A second message to the same recipient, before the first notification
      is read, adds no notification. */
  lemma SecondSendNotifiesNothing(s: Store, caller: Id, recipientId: Id, first: string, second: string)
    requires NotificationsConform(s.notifications) && NoticesDeduplicated(s.notifications)
    requires caller in s.users && Send(s, caller, recipientId, first).Ok?
    ensures var t := Send(s, caller, recipientId, first).value.store;
      && Send(t, caller, recipientId, second).Ok?
      && Send(t, caller, recipientId, second).value.store.notifications == t.notifications
  {
    SendLeavesOneNotice(s, caller, recipientId, first);
  }

  /** A successful send keeps every invariant. */
  lemma SendValid(s: Store, caller: Id, recipientId: Id, content: string)
    requires Valid(s) && caller in s.users
    requires Send(s, caller, recipientId, content).Ok?
    ensures Valid(Send(s, caller, recipientId, content).value.store)
  {
    SendLeavesOneNotice(s, caller, recipientId, content);
  }

  /** Reading a thread keeps every invariant. */
  lemma ThreadValid(s: Store, caller: Id, peer: Id)
    requires Valid(s)
    requires Thread(s, caller, peer).Ok?
    ensures Valid(Thread(s, caller, peer).value.store)
  {
  }
}
