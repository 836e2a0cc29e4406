/** Properties that span two controllers. */
module Scenarios {
  import opened Base
  import opened Store
  import Messages
  import Notifications

  /** Once the recipient has marked every notification read, the next
      message from any sender notifies them again. */
  lemma ReadAllThenSendNotifies(s: Store, sender: Id, recipient: Id, content: string)
    requires sender in s.users && recipient in s.users && sender != recipient
    ensures var t := Notifications.MarkAll(s, recipient);
      && Messages.Send(t, sender, recipient, content).Ok?
      && |Messages.Send(t, sender, recipient, content).value.store.notifications| == |t.notifications| + 1
  {
    var t := Notifications.MarkAll(s, recipient);
    var step := Messages.Send(t, sender, recipient, content).value;
    assert !HasUnreadNotice(t.notifications, recipient, sender);
    AddsOneSize(t.notifications, step.store.notifications,
      Messages.MessageNote(sender, t.users[sender].name, recipient, step.reply, content));
  }

  /** Marking the one message notification read does the same: the next
      message notifies again. */
  lemma ReadNoticeThenSendNotifies(s: Store, sender: Id, recipient: Id, id: Id, content: string)
    requires NoticesDeduplicated(s.notifications)
    requires sender in s.users && recipient in s.users && sender != recipient
    requires id in s.notifications && IsUnreadNotice(s.notifications[id])
    requires s.notifications[id].recipient == recipient && s.notifications[id].sender == sender
    ensures var t := Notifications.MarkRead(s, recipient, id).value.store;
      && Messages.Send(t, sender, recipient, content).Ok?
      && |Messages.Send(t, sender, recipient, content).value.store.notifications| == |t.notifications| + 1
  {
    var t := Notifications.MarkRead(s, recipient, id).value.store;
    var step := Messages.Send(t, sender, recipient, content).value;
    assert !HasUnreadNotice(t.notifications, recipient, sender) by {
      forall k | k in t.notifications && IsUnreadNotice(t.notifications[k])
        ensures t.notifications[k].recipient != recipient || t.notifications[k].sender != sender
      {
        assert k != id;
      }
    }
    AddsOneSize(t.notifications, step.store.notifications,
      Messages.MessageNote(sender, t.users[sender].name, recipient, step.reply, content));
  }
}
