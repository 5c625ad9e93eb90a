/**
 * The `/notifications` routes: a user's notifications, newest first; a new one created
 * unread; one marked read; one deleted. No route checks who is asking.
 */
module NotificationRoutes {
  import opened Common
  import opened Text
  import opened Models
  import opened Store
  import opened Ordering

  // ---------------------------------------------------------------- GET /notifications

  function ForUser(userId: int): Notification -> bool {
    (n: Notification) => n.userId == userId
  }

  /** The sort key of `ORDER BY createdAt DESC`. */
  function CreatedKey(n: Notification): real {
    n.createdAt as real
  }

  datatype NotificationList =
    | UserRequired                      // 400 "User ID is required"
    | Listed(rows: seq<Notification>)   // 200

  /**
   * `GET /notifications?userId=`: 400 when the query has no user id, otherwise that
   * user's notifications, newest first. A query text that is not a number matches none.
   */
  function GetNotifications(notifications: seq<Notification>, userId: Option<string>): (r: NotificationList)
    ensures r.UserRequired? <==> !TruthyText(userId)
    ensures r.Listed? && ParseInt(userId.value).None? ==> r.rows == []
  {
    if !TruthyText(userId) then UserRequired
    else
      match ParseInt(userId.value)
      case None => Listed([])
      case Some(u) => Listed(SortDesc(Filter(notifications, ForUser(u)), CreatedKey))
  }

  /** The listing holds exactly the user's notifications, each once, newest first, ties in store order. */
  lemma GetNotificationsRows(notifications: seq<Notification>, userId: int)
    ensures var r := GetNotifications(notifications, Some(IntToString(userId)));
      var mine := Filter(notifications, ForUser(userId));
      && r.Listed?
      && multiset(r.rows) == multiset(mine)
      && (forall n :: n in r.rows <==> n in notifications && n.userId == userId)
      && (forall i, j :: 0 <= i < j < |r.rows| ==> r.rows[i].createdAt >= r.rows[j].createdAt)
      && (forall v :: Filter(r.rows, HasKey(CreatedKey, v)) == Filter(mine, HasKey(CreatedKey, v)))
  {
    ParseIntIntToString(userId);
    assert IntToString(userId) != "";
    var mine := Filter(notifications, ForUser(userId));
    var rows := SortDesc(mine, CreatedKey);
    SortFilterMembers(notifications, ForUser(userId), CreatedKey);
    forall i, j | 0 <= i < j < |rows| ensures rows[i].createdAt >= rows[j].createdAt {
      assert CreatedKey(rows[i]) >= CreatedKey(rows[j]);
    }
    forall v ensures Filter(rows, HasKey(CreatedKey, v)) == Filter(mine, HasKey(CreatedKey, v)) {
      SortStable(mine, CreatedKey, v);
    }
  }

  // ---------------------------------------------------------------- POST /notifications

  datatype NotificationCreate =
    | FieldsRequired                   // 400 "User ID, message, and type are required"
    | CreateFailed                     // 500, a refused id, a type outside the enumeration, a long event name or an unknown user
    | Created(notification: Notification)  // 201

  /** `!userId || !message || !type`. */
  predicate MissingFields(userId: Field, message: Option<string>, kind: Option<string>) {
    !TruthyField(userId) || !TruthyText(message) || !TruthyText(kind)
  }

  /**
   * `POST /notifications`: 400 without the three fields; otherwise the notification is
   * stored unread, created at `now`, provided the database converts a text user id, the
   * columns accept the row and the user exists.
   */
  method CreateNotice(db: Database, userId: Field, message: Option<string>, kind: Option<string>,
                      eventName: Option<string>, now: int, coerce: IdCoercion)
    returns (out: NotificationCreate)
    requires db.Valid()
    modifies db
    ensures db.Valid()
    ensures MissingFields(userId, message, kind) ==> out == FieldsRequired && unchanged(db)
    ensures !MissingFields(userId, message, kind) && ColumnId(userId, coerce).None? ==>
      out == CreateFailed && unchanged(db)
    ensures !MissingFields(userId, message, kind) && ColumnId(userId, coerce).Some? ==>
      var row := Notification(old(db.nextNotificationId), ColumnId(userId, coerce).value, message.value, kind.value,
                              eventName, false, now);
      if !NotificationRowValid(row) || !UserExists(old(db.users), row.userId) then out == CreateFailed && unchanged(db)
      else
        && out == Created(row)
        && db.notifications == old(db.notifications) + [row]
        && db.nextNotificationId == old(db.nextNotificationId) + 1
        && db.users == old(db.users) && db.profiles == old(db.profiles) && db.events == old(db.events)
        && db.history == old(db.history)
        && db.nextUserId == old(db.nextUserId) && db.nextHistoryId == old(db.nextHistoryId)
    ensures out.Created? ==> !out.notification.read && out.notification.kind in NOTIFICATION_TYPES
    ensures out.Created? ==> UserExists(db.users, out.notification.userId)
  {
    if MissingFields(userId, message, kind) {
      return FieldsRequired;
    }
    var id := ColumnId(userId, coerce);
    if id.None? {
      return CreateFailed;
    }
    var row := Notification(0, id.value, message.value, kind.value, eventName, false, now);
    if !NotificationRowValid(row) || !UserExists(db.users, row.userId) {
      return CreateFailed;
    }
    var stored := db.CreateNotification(row);
    out := Created(stored);
  }

  /**
   * The text `"0"` passes the user-id check while the number 0 does not: the check is
   * JavaScript truthiness, not a test of the id's value.
   */
  lemma TextUserIdPassesCheck(userId: int, message: Option<string>, kind: Option<string>)
    requires TruthyText(message) && TruthyText(kind)
    ensures !MissingFields(Str(IntToString(userId)), message, kind)
    ensures MissingFields(Num(userId), message, kind) <==> userId == 0
  {
    assert IntToString(userId) != "";
  }

  // ---------------------------------------------------------------- PUT /notifications/:id/read

  /** `findByPk(id)`: the position of the notification with that id. */
  function FindNotification(s: seq<Notification>, id: int): (r: Option<nat>)
    ensures r.Some? ==> r.value < |s| && s[r.value].id == id
    ensures r.None? <==> forall i :: 0 <= i < |s| ==> s[i].id != id
  {
    if s == [] then None
    else if s[0].id == id then Some(0)
    else match FindNotification(s[1..], id)
      case None => None
      case Some(k) => Some(k + 1)
  }

  datatype ReadUpdate =
    | NotFound                        // 404 "Notification not found"
    | ReadFailed                      // 500, an id the database refuses
    | MarkedAsRead(notification: Notification)  // 200

  /**
   * `PUT /notifications/:id/read`: 500 when the database refuses the path's text as an id,
   * 404 for an unknown id, otherwise that notification, and only it, is read.
   */
  method MarkRead(db: Database, id: string, coerce: IdCoercion) returns (out: ReadUpdate)
    requires db.Valid()
    modifies db
    ensures db.Valid()
    ensures coerce(id).None? ==> out == ReadFailed && unchanged(db)
    ensures coerce(id).Some? ==> match FindNotification(old(db.notifications), coerce(id).value)
      case None => out == NotFound && unchanged(db)
      case Some(i) =>
        && out == MarkedAsRead(old(db.notifications)[i].(read := true))
        && db.notifications == MarkedRead(old(db.notifications), i)
        && db.users == old(db.users) && db.profiles == old(db.profiles) && db.events == old(db.events)
        && db.history == old(db.history)
        && db.nextUserId == old(db.nextUserId) && db.nextHistoryId == old(db.nextHistoryId)
        && db.nextNotificationId == old(db.nextNotificationId)
  {
    var key := coerce(id);
    if key.None? {
      return ReadFailed;
    }
    var found := FindNotification(db.notifications, key.value);
    if found.None? {
      return NotFound;
    }
    db.SetNotificationRead(found.value);
    out := MarkedAsRead(db.notifications[found.value]);
  }

  /** Marking as read is idempotent, and the notification keeps its position and id. */
  lemma MarkReadIdempotent(s: seq<Notification>, id: int)
    requires FindNotification(s, id).Some?
    ensures var i := FindNotification(s, id).value;
      && FindNotification(MarkedRead(s, i), id) == Some(i)
      && MarkedRead(MarkedRead(s, i), i) == MarkedRead(s, i)
  {
    var i := FindNotification(s, id).value;
    var r := MarkedRead(s, i);
    assert forall j :: 0 <= j < |s| ==> r[j].id == s[j].id;
    FindSameIds(s, r, id);
  }

  /** Two tables with the same ids in the same positions find an id at the same position. */
  lemma {:induction false} FindSameIds(s: seq<Notification>, r: seq<Notification>, id: int)
    requires |s| == |r| && forall j :: 0 <= j < |s| ==> r[j].id == s[j].id
    ensures FindNotification(r, id) == FindNotification(s, id)
  {
    if s != [] {
      FindSameIds(s[1..], r[1..], id);
    }
  }

  // ---------------------------------------------------------------- DELETE /notifications/:id

  datatype Deletion =
    | NothingDeleted   // 404 "Notification not found"
    | DeleteFailed     // 500, an id the database refuses
    | Deleted          // 200

  /**
   * `DELETE /notifications/:id`: 500 when the database refuses the path's text as an id,
   * 404 for an unknown id, otherwise exactly that notification goes.
   */
  method Delete(db: Database, id: string, coerce: IdCoercion) returns (out: Deletion)
    requires db.Valid()
    modifies db
    ensures db.Valid()
    ensures coerce(id).None? ==> out == DeleteFailed && unchanged(db)
    ensures coerce(id).Some? ==> match FindNotification(old(db.notifications), coerce(id).value)
      case None => out == NothingDeleted && unchanged(db)
      case Some(i) =>
        && out == Deleted
        && db.notifications == Without(old(db.notifications), i)
        && db.users == old(db.users) && db.profiles == old(db.profiles) && db.events == old(db.events)
        && db.history == old(db.history)
        && db.nextUserId == old(db.nextUserId) && db.nextHistoryId == old(db.nextHistoryId)
        && db.nextNotificationId == old(db.nextNotificationId)
    ensures coerce(id).Some? ==>
      forall n :: n in db.notifications <==> n in old(db.notifications) && n.id != coerce(id).value
  {
    var key := coerce(id);
    if key.None? {
      return DeleteFailed;
    }
    var found := FindNotification(db.notifications, key.value);
    if found.None? {
      return NothingDeleted;
    }
    WithoutMembers(db.notifications, db.nextNotificationId, found.value);
    db.DestroyNotification(found.value);
    out := Deleted;
  }

  /** After a deletion the id is gone for good: a second deletion of it finds nothing. */
  lemma DeleteThenNotFound(s: seq<Notification>, next: int, id: int)
    requires NotificationsValid(s, next) && FindNotification(s, id).Some?
    ensures FindNotification(Without(s, FindNotification(s, id).value), id).None?
  {
    var i := FindNotification(s, id).value;
    WithoutMembers(s, next, i);
    var r := Without(s, i);
    forall j | 0 <= j < |r| ensures r[j].id != id {
      assert r[j] in r;
    }
  }
}
