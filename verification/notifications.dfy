/** The notification controller: the caller's notifications newest first,
    marking one or all of them read, the unread count and deletion. Only
    the recipient may touch a notification. */
module Notifications {
  import opened Base
  import opened Listing
  import opened Store

  /** The notification is addressed to `caller`. */
  predicate AddressedTo(n: Notification, caller: Id) {
    n.recipient == caller
  }

  /** `getNotifications`: every notification addressed to the caller, newest
      first. */
  function List(s: Store, caller: Id): (r: seq<(Id, Notification)>)
    ensures forall i | 0 <= i < |r| ::
      r[i].0 in s.notifications && r[i].1 == s.notifications[r[i].0] && r[i].1.recipient == caller
    ensures forall k | k in s.notifications && s.notifications[k].recipient == caller :: (k, s.notifications[k]) in r
    ensures forall i, j | 0 <= i < j < |r| :: r[i].0 > r[j].0
  {
    var r := Descending(s.notifications, (n: Notification) => AddressedTo(n, caller), s.nextId);
    forall k | k in s.notifications && s.notifications[k].recipient == caller
      ensures (k, s.notifications[k]) in r
    {
      assert k < s.nextId;
    }
    r
  }

  /** The look-up and ownership check shared by `markAsRead` and
      `deleteNotification`: 404 for an unknown id, then 401 unless the caller
      is the recipient. */
  function Owned(s: Store, caller: Id, id: Id): (r: Result<Notification>)
    ensures id !in s.notifications ==> r == Err(NotFound)
    ensures id in s.notifications && s.notifications[id].recipient != caller ==> r == Err(Unauthorized)
    ensures r.Ok? <==> id in s.notifications && s.notifications[id].recipient == caller
    ensures r.Ok? ==> r.value == s.notifications[id]
  {
    if id !in s.notifications then Err(NotFound)
    else if s.notifications[id].recipient != caller then Err(Unauthorized)
    else Ok(s.notifications[id])
  }

  /** `markAsRead`: the notification, and only it, becomes read; the reply
      is the updated notification. */
  function MarkRead(s: Store, caller: Id, id: Id): (r: Result<Step<Notification>>)
    ensures r.Ok? <==> Owned(s, caller, id).Ok?
    ensures r.Err? ==> r.error == Owned(s, caller, id).error
    ensures r.Ok? ==>
      && r.value.reply == s.notifications[id].(read := true)
      && r.value.store == s.(notifications := s.notifications[id := r.value.reply])
  {
    var n :- Owned(s, caller, id);
    Ok(Step(WithNotifications(s, s.notifications[id := n.(read := true)]), n.(read := true)))
  }

  /** `markAllAsRead`: every unread notification addressed to the caller
      becomes read; every other notification stays as it was. */
  function MarkAllRead(notifications: map<Id, Notification>, caller: Id): (r: map<Id, Notification>)
    ensures r.Keys == notifications.Keys
    ensures forall k | k in notifications && notifications[k].recipient != caller :: r[k] == notifications[k]
    ensures forall k | k in notifications && notifications[k].recipient == caller ::
      r[k] == notifications[k].(read := true)
  {
    map k | k in notifications ::
      if notifications[k].recipient == caller && !notifications[k].read then notifications[k].(read := true)
      else notifications[k]
  }

  /** `markAllAsRead`; it always succeeds. Every notification addressed to
      the caller is read afterwards, every other one is as it was, and no
      other collection changes. */
  function MarkAll(s: Store, caller: Id): (r: Store)
    ensures r == s.(notifications := r.notifications)
    ensures r.notifications.Keys == s.notifications.Keys
    ensures forall k | k in s.notifications :: r.notifications[k].read == (s.notifications[k].read || s.notifications[k].recipient == caller)
    ensures forall k | k in s.notifications :: r.notifications[k].(read := s.notifications[k].read) == s.notifications[k]
  {
    WithNotifications(s, MarkAllRead(s.notifications, caller))
  }

  /** The unread notifications addressed to `caller`. */
  function UnreadIds(notifications: map<Id, Notification>, caller: Id): set<Id> {
    set k | k in notifications && notifications[k].recipient == caller && !notifications[k].read
  }

  /** The filter `{recipient: caller, read: false}`. */
  function UnreadFilter(caller: Id): Notification -> bool {
    (n: Notification) => n.recipient == caller && !n.read
  }

  /** `getUnreadCount`: `countDocuments({recipient: caller, read: false})`.
      It is the number of unread notifications addressed to the caller, which
      is also the length of the listing `find` returns for the same filter. */
  function UnreadCount(s: Store, caller: Id): (r: nat)
    ensures r == |UnreadIds(s.notifications, caller)|
    ensures r == |Ascending(s.notifications, UnreadFilter(caller), s.nextId)|
  {
    CountIsListingLength(s.notifications, UnreadFilter(caller), s.nextId);
    assert Matching(s.notifications, UnreadFilter(caller)) == UnreadIds(s.notifications, caller);
    Count(s.notifications, UnreadFilter(caller))
  }

  /** `deleteNotification`: the notification is removed, nothing else
      changes. */
  function Delete(s: Store, caller: Id, id: Id): (r: Result<Store>)
    ensures r.Ok? <==> Owned(s, caller, id).Ok?
    ensures r.Err? ==> r.error == Owned(s, caller, id).error
    ensures r.Ok? ==> r.value == s.(notifications := s.notifications - {id})
  {
    var _ :- Owned(s, caller, id);
    Ok(WithNotifications(s, s.notifications - {id}))
  }

  /** Marking a notification read twice is the same as marking it once. */
  lemma MarkReadTwice(s: Store, caller: Id, id: Id)
    requires MarkRead(s, caller, id).Ok?
    ensures var once := MarkRead(s, caller, id).value;
      MarkRead(once.store, caller, id) == Ok(once)
  {
    var once := MarkRead(s, caller, id).value;
    UpdateSame(once.store.notifications, id);
  }

  /** Marking one notification read lowers the unread count by one when it
      was unread and leaves it alone otherwise. */
  lemma MarkReadCount(s: Store, caller: Id, id: Id)
    requires MarkRead(s, caller, id).Ok?
    ensures UnreadCount(MarkRead(s, caller, id).value.store, caller)
      == if s.notifications[id].read then UnreadCount(s, caller) else UnreadCount(s, caller) - 1
  {
    var t := MarkRead(s, caller, id).value.store;
    var before := UnreadIds(s.notifications, caller);
    var after := UnreadIds(t.notifications, caller);
    if s.notifications[id].read {
      assert after == before;
    } else {
      assert after == before - {id};
    }
  }

  /** After marking all read the caller has no unread notification. */
  lemma MarkAllLeavesNoneUnread(s: Store, caller: Id)
    ensures UnreadCount(MarkAll(s, caller), caller) == 0
  {
    assert UnreadIds(MarkAll(s, caller).notifications, caller) == {};
  }

  /** Marking all read a second time changes nothing. */
  lemma MarkAllTwice(s: Store, caller: Id)
    ensures MarkAll(MarkAll(s, caller), caller) == MarkAll(s, caller)
  {
    MarkAllReadTwice(s.notifications, caller);
  }

  lemma MarkAllReadTwice(notifications: map<Id, Notification>, caller: Id)
    ensures MarkAllRead(MarkAllRead(notifications, caller), caller) == MarkAllRead(notifications, caller)
  {
    var once := MarkAllRead(notifications, caller);
    assert MarkAllRead(once, caller) == once;
  }

  /** Marking all read leaves everybody else's unread count alone. */
  lemma MarkAllKeepsOthers(s: Store, caller: Id, other: Id)
    requires other != caller
    ensures UnreadCount(MarkAll(s, caller), other) == UnreadCount(s, other)
  {
    assert UnreadIds(MarkAll(s, caller).notifications, other) == UnreadIds(s.notifications, other);
  }

  /** Deleting a notification lowers the collection's size by one, and the
      same delete a second time is a 404. */
  lemma DeleteOnce(s: Store, caller: Id, id: Id)
    requires Delete(s, caller, id).Ok?
    ensures |Delete(s, caller, id).value.notifications| == |s.notifications| - 1
    ensures Delete(Delete(s, caller, id).value, caller, id) == Err(NotFound)
  {
  }

  /** A read notification is not an unread message notification, so marking
      notifications read keeps both notification invariants. */
  lemma ReadingKeepsNotifications(before: map<Id, Notification>, after: map<Id, Notification>)
    requires NotificationsConform(before) && NoticesDeduplicated(before)
    requires after.Keys == before.Keys
    requires forall k | k in before :: after[k] == before[k] || after[k] == before[k].(read := true)
    ensures NotificationsConform(after) && NoticesDeduplicated(after)
  {
    forall a, b | a in after && b in after && a != b && IsUnreadNotice(after[a]) && IsUnreadNotice(after[b])
      ensures after[a].recipient != after[b].recipient || after[a].sender != after[b].sender
    {
      assert after[a] == before[a] && after[b] == before[b];
    }
  }

  lemma MarkReadValid(s: Store, caller: Id, id: Id)
    requires Valid(s) && MarkRead(s, caller, id).Ok?
    ensures Valid(MarkRead(s, caller, id).value.store)
  {
    ReadingKeepsNotifications(s.notifications, MarkRead(s, caller, id).value.store.notifications);
  }

  lemma MarkAllValid(s: Store, caller: Id)
    requires Valid(s)
    ensures Valid(MarkAll(s, caller))
  {
    ReadingKeepsNotifications(s.notifications, MarkAll(s, caller).notifications);
  }

  lemma DeleteValid(s: Store, caller: Id, id: Id)
    requires Valid(s) && Delete(s, caller, id).Ok?
    ensures Valid(Delete(s, caller, id).value)
  {
  }
}
