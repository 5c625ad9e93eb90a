/**
 * The persistent store: one object holding every table, updated in place by the
 * route handlers. Record ids are drawn from per-table counters, as auto-increment
 * keys are.
 */
module Store {
  import opened Common
  import opened Text
  import opened Models

  /** Whether the ids of the rows are pairwise distinct. */
  predicate UniqueHistoryIds(s: seq<HistoryRecord>) {
    forall i, j :: 0 <= i < j < |s| ==> s[i].id != s[j].id
  }

  predicate UniqueNotificationIds(s: seq<Notification>) {
    forall i, j :: 0 <= i < j < |s| ==> s[i].id != s[j].id
  }

  predicate UniqueUsers(s: seq<User>) {
    forall i, j :: 0 <= i < j < |s| ==> s[i].id != s[j].id && s[i].email != s[j].email
  }

  /** The history records that link volunteer `userId` to event `eventId`. */
  function PairCount(s: seq<HistoryRecord>, userId: int, eventId: int): (n: nat)
    ensures n <= |s|
    ensures n == 0 <==> forall i :: 0 <= i < |s| ==> !(s[i].userId == userId && s[i].eventId == eventId)
  {
    if s == [] then 0
    else (if s[0].userId == userId && s[0].eventId == eventId then 1 else 0) + PairCount(s[1..], userId, eventId)
  }

  lemma {:induction false} PairCountAppend(s: seq<HistoryRecord>, h: HistoryRecord, userId: int, eventId: int)
    ensures PairCount(s + [h], userId, eventId)
         == PairCount(s, userId, eventId) + (if h.userId == userId && h.eventId == eventId then 1 else 0)
  {
    if s != [] {
      assert (s + [h])[1..] == s[1..] + [h];
      PairCountAppend(s[1..], h, userId, eventId);
    }
  }

  /** Whether a user row has that id. */
  predicate UserExists(users: seq<User>, id: int) {
    exists i :: 0 <= i < |users| && users[i].id == id
  }

  /** A user stays once another is added. */
  lemma UserExistsAppend(users: seq<User>, u: User, id: int)
    requires UserExists(users, id)
    ensures UserExists(users + [u], id)
  {
    var i :| 0 <= i < |users| && users[i].id == id;
    assert (users + [u])[i] == users[i];
  }

  /**
   * The database's conversion of a text bound to an INTEGER column; `None` when it
   * refuses the text and the statement fails. The database engine is a parameter of the model.
   */
  type IdCoercion = string -> Option<int>

  /** The integer a request id is stored as: a number as it is, a text as the database converts it. */
  function ColumnId(f: Field, coerce: IdCoercion): (r: Option<int>)
    ensures f.Num? ==> r == Some(f.n)
    ensures f.Str? ==> r == coerce(f.s)
    ensures f.Absent? ==> r.None?
  {
    match f
    case Absent => None
    case Str(t) => coerce(t)
    case Num(n) => Some(n)
  }

  /** An id sent as its decimal text is stored as the same id sent as a number, when the database reads decimals. */
  lemma ColumnIdRepresentationIndependent(n: int, coerce: IdCoercion)
    requires coerce(IntToString(n)) == Some(n)
    ensures ColumnId(Str(IntToString(n)), coerce) == ColumnId(Num(n), coerce) == Some(n)
  {
  }

  /**
   * The foreign keys of the `belongsTo` associations: every profile, history record and
   * notification names an existing user, and every history record an existing event.
   */
  predicate ReferencesValid(users: seq<User>, events: map<int, Event>, profiles: map<int, Profile>,
                            history: seq<HistoryRecord>, notifications: seq<Notification>) {
    && (forall k :: k in profiles ==> UserExists(users, k))
    && (forall i :: 0 <= i < |history| ==> UserExists(users, history[i].userId) && history[i].eventId in events)
    && (forall i :: 0 <= i < |notifications| ==> UserExists(users, notifications[i].userId))
  }

  /** Adding a user breaks no reference. */
  lemma ReferencesGrowWithUsers(users: seq<User>, u: User, events: map<int, Event>, profiles: map<int, Profile>,
                                history: seq<HistoryRecord>, notifications: seq<Notification>)
    requires ReferencesValid(users, events, profiles, history, notifications)
    ensures ReferencesValid(users + [u], events, profiles, history, notifications)
  {
    forall k | k in profiles ensures UserExists(users + [u], k) {
      UserExistsAppend(users, u, k);
    }
    forall i | 0 <= i < |history| ensures UserExists(users + [u], history[i].userId) {
      UserExistsAppend(users, u, history[i].userId);
    }
    forall i | 0 <= i < |notifications| ensures UserExists(users + [u], notifications[i].userId) {
      UserExistsAppend(users, u, notifications[i].userId);
    }
  }

  /** The user table: valid rows with ids below the counter, ids and e-mails distinct. */
  predicate UsersValid(s: seq<User>, next: int) {
    (forall i :: 0 <= i < |s| ==> UserRowValid(s[i]) && s[i].id < next) && UniqueUsers(s)
  }

  /** The profile table, keyed by its rows' user ids. */
  predicate ProfilesValid(m: map<int, Profile>) {
    forall k :: k in m ==> m[k].userId == k && ProfileRowValid(m[k])
  }

  /** The history table: valid rows with ids below the counter, ids distinct. */
  predicate HistoryValid(s: seq<HistoryRecord>, next: int) {
    (forall i :: 0 <= i < |s| ==> HistoryRowValid(s[i]) && s[i].id < next) && UniqueHistoryIds(s)
  }

  /** The notification table: valid rows with ids below the counter, ids distinct. */
  predicate NotificationsValid(s: seq<Notification>, next: int) {
    (forall i :: 0 <= i < |s| ==> NotificationRowValid(s[i]) && s[i].id < next) && UniqueNotificationIds(s)
  }

  /** A valid row inserted under the counter's id keeps the table valid once the counter moves on. */
  lemma HistoryAppend(s: seq<HistoryRecord>, next: int, h: HistoryRecord)
    requires HistoryValid(s, next) && HistoryRowValid(h) && h.id == next
    ensures HistoryValid(s + [h], next + 1)
  {
  }

  lemma NotificationsAppend(s: seq<Notification>, next: int, n: Notification)
    requires NotificationsValid(s, next) && NotificationRowValid(n) && n.id == next
    ensures NotificationsValid(s + [n], next + 1)
  {
  }

  /** The table with the status of row `i` replaced; every other column and row stays as it was. */
  function WithStatus(s: seq<HistoryRecord>, i: nat, status: string): (r: seq<HistoryRecord>)
    requires i < |s|
    ensures |r| == |s| && r[i].status == status
    ensures r[i] == s[i].(status := status)
    ensures forall j :: 0 <= j < |s| && j != i ==> r[j] == s[j]
  {
    s[i := s[i].(status := status)]
  }

  /** Overwriting a status with an allowed one keeps the table valid. */
  lemma WithStatusValid(s: seq<HistoryRecord>, next: int, i: nat, status: string)
    requires HistoryValid(s, next) && i < |s| && status in STATUSES
    ensures HistoryValid(WithStatus(s, i, status), next)
  {
    var r := WithStatus(s, i, status);
    forall j, k | 0 <= j < k < |r| ensures r[j].id != r[k].id {
      assert r[j].id == s[j].id && r[k].id == s[k].id;
    }
  }

  /** The notifications with row `i` marked read; every other column and row stays as it was. */
  function MarkedRead(s: seq<Notification>, i: nat): (r: seq<Notification>)
    requires i < |s|
    ensures |r| == |s| && r[i] == s[i].(read := true)
    ensures forall j :: 0 <= j < |s| && j != i ==> r[j] == s[j]
  {
    s[i := s[i].(read := true)]
  }

  lemma MarkedReadValid(s: seq<Notification>, next: int, i: nat)
    requires NotificationsValid(s, next) && i < |s|
    ensures NotificationsValid(MarkedRead(s, i), next)
  {
    var r := MarkedRead(s, i);
    forall j, k | 0 <= j < k < |r| ensures r[j].id != r[k].id {
      assert r[j].id == s[j].id && r[k].id == s[k].id;
    }
  }

  /** The notifications without row `i`, the others in their order. */
  function Without(s: seq<Notification>, i: nat): (r: seq<Notification>)
    requires i < |s|
    ensures |r| == |s| - 1
    ensures forall j :: 0 <= j < i ==> r[j] == s[j]
    ensures forall j :: i <= j < |r| ==> r[j] == s[j + 1]
  {
    s[..i] + s[i + 1..]
  }

  /** With distinct ids, removing row `i` removes exactly the notification with its id. */
  lemma WithoutMembers(s: seq<Notification>, next: int, i: nat)
    requires NotificationsValid(s, next) && i < |s|
    ensures NotificationsValid(Without(s, i), next)
    ensures forall n :: n in Without(s, i) <==> n in s && n.id != s[i].id
  {
    var r := Without(s, i);
    forall n ensures n in r <==> n in s && n.id != s[i].id {
      if n in r {
        var j :| 0 <= j < |r| && r[j] == n;
        if j < i {
          assert s[j] == n;
        } else {
          assert s[j + 1] == n;
        }
      }
      if n in s && n.id != s[i].id {
        var j :| 0 <= j < |s| && s[j] == n;
        assert j != i;
        if j < i {
          assert r[j] == n;
        } else {
          assert r[j - 1] == n;
        }
      }
    }
    forall j, k | 0 <= j < k < |r| ensures r[j].id != r[k].id {
      var j' := if j < i then j else j + 1;
      var k' := if k < i then k else k + 1;
      assert r[j] == s[j'] && r[k] == s[k'];
    }
  }

  class Database {
    var users: seq<User>
    var profiles: map<int, Profile>
    var events: map<int, Event>
    var history: seq<HistoryRecord>
    var notifications: seq<Notification>
    var nextUserId: int
    var nextHistoryId: int
    var nextNotificationId: int

    /** The table constraints, the foreign keys, and the key discipline of the auto-increment counters. */
    ghost predicate Valid()
      reads this
    {
      && UsersValid(users, nextUserId)
      && ProfilesValid(profiles)
      && HistoryValid(history, nextHistoryId)
      && NotificationsValid(notifications, nextNotificationId)
      && ReferencesValid(users, events, profiles, history, notifications)
    }

    /** An empty store whose counters start at 1. */
    constructor (events: map<int, Event>)
      ensures Valid()
      ensures this.events == events
      ensures users == [] && profiles == map[] && history == [] && notifications == []
    {
      this.users := [];
      this.profiles := map[];
      this.events := events;
      this.history := [];
      this.notifications := [];
      this.nextUserId := 1;
      this.nextHistoryId := 1;
      this.nextNotificationId := 1;
    }

    /** `VolunteerHistory.create`: the row is stored under the next id, which is returned with it. */
    method CreateHistory(h: HistoryRecord) returns (stored: HistoryRecord)
      requires Valid() && HistoryRowValid(h)
      requires UserExists(users, h.userId) && h.eventId in events
      modifies this
      ensures Valid()
      ensures stored == h.(id := old(nextHistoryId))
      ensures history == old(history) + [stored] && nextHistoryId == old(nextHistoryId) + 1
      ensures users == old(users) && profiles == old(profiles) && events == old(events)
      ensures notifications == old(notifications)
      ensures nextUserId == old(nextUserId) && nextNotificationId == old(nextNotificationId)
    {
      stored := h.(id := nextHistoryId);
      HistoryAppend(history, nextHistoryId, stored);
      history, nextHistoryId := history + [stored], nextHistoryId + 1;
    }

    /** `Notification.create`: the row is stored under the next id, which is returned with it. */
    method CreateNotification(n: Notification) returns (stored: Notification)
      requires Valid() && NotificationRowValid(n)
      requires UserExists(users, n.userId)
      modifies this
      ensures Valid()
      ensures stored == n.(id := old(nextNotificationId))
      ensures notifications == old(notifications) + [stored] && nextNotificationId == old(nextNotificationId) + 1
      ensures users == old(users) && profiles == old(profiles) && events == old(events)
      ensures history == old(history)
      ensures nextUserId == old(nextUserId) && nextHistoryId == old(nextHistoryId)
    {
      stored := n.(id := nextNotificationId);
      NotificationsAppend(notifications, nextNotificationId, stored);
      notifications, nextNotificationId := notifications + [stored], nextNotificationId + 1;
    }

    /** `UserProfile.create`: a new row under its own user id, which no row holds yet. */
    method CreateProfile(p: Profile)
      requires Valid() && ProfileRowValid(p) && p.userId !in profiles
      requires UserExists(users, p.userId)
      modifies this
      ensures Valid()
      ensures profiles == old(profiles)[p.userId := p]
      ensures users == old(users) && events == old(events)
      ensures history == old(history) && notifications == old(notifications)
      ensures nextUserId == old(nextUserId) && nextHistoryId == old(nextHistoryId)
      ensures nextNotificationId == old(nextNotificationId)
    {
      profiles := profiles[p.userId := p];
    }

    /** `profile.update(data)` on the row found under the user id: every column is overwritten. */
    method UpdateProfile(p: Profile)
      requires Valid() && ProfileRowValid(p) && p.userId in profiles
      modifies this
      ensures Valid()
      ensures profiles == old(profiles)[p.userId := p]
      ensures users == old(users) && events == old(events)
      ensures history == old(history) && notifications == old(notifications)
      ensures nextUserId == old(nextUserId) && nextHistoryId == old(nextHistoryId)
      ensures nextNotificationId == old(nextNotificationId)
    {
      profiles := profiles[p.userId := p];
    }

    /** `record.status = status; record.save()` on row `i`, with a status the column allows. */
    method SetHistoryStatus(i: nat, status: string)
      requires Valid() && i < |history| && status in STATUSES
      modifies this
      ensures Valid()
      ensures history == WithStatus(old(history), i, status)
      ensures users == old(users) && profiles == old(profiles) && events == old(events)
      ensures notifications == old(notifications)
      ensures nextUserId == old(nextUserId) && nextHistoryId == old(nextHistoryId)
      ensures nextNotificationId == old(nextNotificationId)
    {
      WithStatusValid(history, nextHistoryId, i, status);
      history := WithStatus(history, i, status);
    }

    /** `notification.read = true; notification.save()` on row `i`. */
    method SetNotificationRead(i: nat)
      requires Valid() && i < |notifications|
      modifies this
      ensures Valid()
      ensures notifications == MarkedRead(old(notifications), i)
      ensures users == old(users) && profiles == old(profiles) && events == old(events)
      ensures history == old(history)
      ensures nextUserId == old(nextUserId) && nextHistoryId == old(nextHistoryId)
      ensures nextNotificationId == old(nextNotificationId)
    {
      MarkedReadValid(notifications, nextNotificationId, i);
      notifications := MarkedRead(notifications, i);
    }

    /** `notification.destroy()` on row `i`. */
    method DestroyNotification(i: nat)
      requires Valid() && i < |notifications|
      modifies this
      ensures Valid()
      ensures notifications == Without(old(notifications), i)
      ensures users == old(users) && profiles == old(profiles) && events == old(events)
      ensures history == old(history)
      ensures nextUserId == old(nextUserId) && nextHistoryId == old(nextHistoryId)
      ensures nextNotificationId == old(nextNotificationId)
    {
      WithoutMembers(notifications, nextNotificationId, i);
      notifications := Without(notifications, i);
    }

    /** `User.create`: the row is stored under the next id, which is returned with it. */
    method CreateUser(u: User) returns (stored: User)
      requires Valid() && UserRowValid(u)
      requires forall i :: 0 <= i < |users| ==> users[i].email != u.email
      modifies this
      ensures Valid()
      ensures stored == u.(id := old(nextUserId))
      ensures users == old(users) + [stored] && nextUserId == old(nextUserId) + 1
      ensures profiles == old(profiles) && events == old(events)
      ensures history == old(history) && notifications == old(notifications)
      ensures nextHistoryId == old(nextHistoryId) && nextNotificationId == old(nextNotificationId)
    {
      stored := u.(id := nextUserId);
      ReferencesGrowWithUsers(users, stored, events, profiles, history, notifications);
      users, nextUserId := users + [stored], nextUserId + 1;
    }
  }
}
