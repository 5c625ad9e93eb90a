/**
 * The notifications page: the list the server returned, the all/unread/read view of
 * it, the counts in its header, and the local updates made after the server accepted
 * a mark-read or a deletion.
 */
module ClientNotifications {
  import opened Common
  import opened Models

  function Unread(n: Notification): bool {
    !n.read
  }

  function IsRead(n: Notification): bool {
    n.read
  }

  /** `getFilteredNotifications`: `"unread"` and `"read"` select, any other view shows all. */
  function Visible(ns: seq<Notification>, view: string): (r: seq<Notification>)
    ensures view == "unread" ==> r == Filter(ns, Unread)
    ensures view == "read" ==> r == Filter(ns, IsRead)
    ensures view != "unread" && view != "read" ==> r == ns
  {
    match view
    case "unread" => Filter(ns, Unread)
    case "read" => Filter(ns, IsRead)
    case _ => ns
  }

  /** The views list exactly the unread, or the read, notifications, in their order. */
  lemma VisibleMembers(ns: seq<Notification>)
    ensures forall n :: n in Visible(ns, "unread") <==> n in ns && !n.read
    ensures forall n :: n in Visible(ns, "read") <==> n in ns && n.read
    ensures |Visible(ns, "unread")| == UnreadCount(ns)
  {
    FilterMembers(ns, Unread);
    FilterMembers(ns, IsRead);
  }

  /** `notifications.filter(n => !n.read).length`. */
  function UnreadCount(ns: seq<Notification>): (k: nat)
    ensures k <= |ns|
  {
    Count(ns, Unread)
  }

  /** The header's read count, total minus unread, is the number of read notifications. */
  lemma {:induction false} ReadCountPartition(ns: seq<Notification>)
    ensures |ns| - UnreadCount(ns) == Count(ns, IsRead)
    ensures |Visible(ns, "read")| == |ns| - UnreadCount(ns)
  {
    if ns != [] {
      ReadCountPartition(ns[1..]);
    }
    FilterMembers(ns, IsRead);
  }

  /** The local update after `PUT /:id/read` succeeded: the notifications with that id become read. */
  function LocalMarkRead(ns: seq<Notification>, id: int): (r: seq<Notification>)
    ensures |r| == |ns|
    ensures forall i :: 0 <= i < |ns| ==> r[i] == (if ns[i].id == id then ns[i].(read := true) else ns[i])
  {
    if ns == [] then []
    else [if ns[0].id == id then ns[0].(read := true) else ns[0]] + LocalMarkRead(ns[1..], id)
  }

  /** The local update after `DELETE /:id` succeeded. */
  function LocalDelete(ns: seq<Notification>, id: int): seq<Notification> {
    Filter(ns, (n: Notification) => n.id != id)
  }

  /** Exactly the notifications with that id leave the list; the others stay, in order. */
  lemma LocalDeleteMembers(ns: seq<Notification>, id: int)
    ensures forall n :: n in LocalDelete(ns, id) <==> n in ns && n.id != id
    ensures |LocalDelete(ns, id)| <= |ns|
  {
    FilterMembers(ns, (n: Notification) => n.id != id);
  }

  /** Marking one notification read lowers the unread count by one when it was unread, and so is idempotent. */
  lemma {:induction false} LocalMarkReadCount(ns: seq<Notification>, id: int)
    ensures UnreadCount(LocalMarkRead(ns, id)) == UnreadCount(ns) - Count(ns, (n: Notification) => n.id == id && !n.read)
    ensures LocalMarkRead(LocalMarkRead(ns, id), id) == LocalMarkRead(ns, id)
  {
    if ns != [] {
      LocalMarkReadCount(ns[1..], id);
      assert LocalMarkRead(ns, id)[1..] == LocalMarkRead(ns[1..], id);
    }
  }

  /** The ids of the notifications that are unread, in list order. */
  function UnreadIds(ns: seq<Notification>): (ids: seq<int>)
    ensures forall i :: 0 <= i < |ns| && !ns[i].read ==> ns[i].id in ids
  {
    if ns == [] then []
    else (if !ns[0].read then [ns[0].id] else []) + UnreadIds(ns[1..])
  }

  /** One id per unread notification, in list order, and no id of a notification already read only. */
  lemma {:induction false} UnreadIdsExact(ns: seq<Notification>)
    ensures |UnreadIds(ns)| == |Filter(ns, Unread)| == UnreadCount(ns)
    ensures forall k :: 0 <= k < |UnreadIds(ns)| ==> UnreadIds(ns)[k] == Filter(ns, Unread)[k].id
    ensures forall id :: id in UnreadIds(ns) <==> exists i :: 0 <= i < |ns| && !ns[i].read && ns[i].id == id
  {
    if ns != [] {
      UnreadIdsExact(ns[1..]);
      forall id | id in UnreadIds(ns[1..]) ensures exists i :: 0 <= i < |ns| && !ns[i].read && ns[i].id == id {
        var j :| 0 <= j < |ns[1..]| && !ns[1..][j].read && ns[1..][j].id == id;
        assert ns[j + 1] == ns[1..][j];
      }
      forall id | exists i :: 0 <= i < |ns| && !ns[i].read && ns[i].id == id ensures id in UnreadIds(ns) {
        var i :| 0 <= i < |ns| && !ns[i].read && ns[i].id == id;
      }
    }
  }

  /** The page's list of notifications. */
  class NotificationsPage {
    var notifications: seq<Notification>

    constructor (loaded: seq<Notification>)
      ensures notifications == loaded
    {
      notifications := loaded;
    }

    /** `markAsRead(id)`; `accepted` is whether the server answered the request with success. */
    method MarkAsRead(id: int, accepted: bool)
      modifies this
      ensures notifications == (if accepted then LocalMarkRead(old(notifications), id) else old(notifications))
    {
      if accepted {
        notifications := LocalMarkRead(notifications, id);
      }
    }

    /** `deleteNotification(id)`; `accepted` is whether the server answered with success. */
    method DeleteNotification(id: int, accepted: bool)
      modifies this
      ensures notifications == (if accepted then LocalDelete(old(notifications), id) else old(notifications))
    {
      if accepted {
        notifications := LocalDelete(notifications, id);
      }
    }

    /**
     * `markAllAsRead`: one request per notification unread at the start, one after the
     * other. `accepts(id)` is the server's answer for that id. An unread notification
     * becomes read exactly when its request was accepted; nothing else changes.
     */
    method MarkAllAsRead(accepts: int -> bool)
      modifies this
      ensures |notifications| == |old(notifications)|
      ensures forall i :: 0 <= i < |notifications| ==>
        notifications[i] == (if !old(notifications)[i].read && accepts(old(notifications)[i].id)
                             then old(notifications)[i].(read := true) else old(notifications)[i])
      ensures (forall id :: accepts(id)) ==> UnreadCount(notifications) == 0
    {
      ghost var start := notifications;
      var ids := UnreadIds(notifications);
      var k := 0;
      while k < |ids|
        invariant 0 <= k <= |ids|
        invariant |notifications| == |start|
        invariant forall i :: 0 <= i < |start| ==>
          notifications[i] == (if start[i].id in ids[..k] && accepts(start[i].id)
                               then start[i].(read := true) else start[i])
      {
        MarkAsRead(ids[k], accepts(ids[k]));
        assert ids[..k + 1] == ids[..k] + [ids[k]];
        k := k + 1;
      }
      assert ids[..k] == ids;
      if forall id :: accepts(id) {
        NoneUnread(notifications);
      }
    }
  }

  /** A list in which every notification is read has no unread one. */
  lemma {:induction false} NoneUnread(ns: seq<Notification>)
    requires forall i :: 0 <= i < |ns| ==> ns[i].read
    ensures UnreadCount(ns) == 0
  {
    if ns != [] {
      NoneUnread(ns[1..]);
    }
  }
}
