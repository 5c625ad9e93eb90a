/**
 * The `/history` routes: a volunteer's participation records, newest event first; a
 * new record logged with a default status; and the status of a record overwritten.
 * No route checks who is asking.
 */
module HistoryRoutes {
  import opened Common
  import opened Text
  import opened Models
  import opened Store
  import opened Ordering

  // ---------------------------------------------------------------- GET /history

  function OfUser(userId: int): HistoryRecord -> bool {
    (h: HistoryRecord) => h.userId == userId
  }

  /** The sort key of `ORDER BY eventDate DESC`. */
  function DateKey(h: HistoryRecord): real {
    DayKey(h.eventDate) as real
  }

  datatype HistoryList =
    | UserRequired                       // 400 "User ID is required"
    | Listed(rows: seq<HistoryRecord>)   // 200

  /**
   * `GET /history?userId=`: 400 when the query has no user id, otherwise that user's
   * records, latest event date first. The query text is read as an integer; one that
   * is not a number matches no record.
   */
  function GetHistory(history: seq<HistoryRecord>, userId: Option<string>): (r: HistoryList)
    ensures r.UserRequired? <==> !TruthyText(userId)
    ensures r.Listed? && ParseInt(userId.value).None? ==> r.rows == []
  {
    if !TruthyText(userId) then UserRequired
    else
      match ParseInt(userId.value)
      case None => Listed([])
      case Some(u) => Listed(SortDesc(Filter(history, OfUser(u)), DateKey))
  }

  /** The listing holds exactly the user's records, each once, by date descending, ties in store order. */
  lemma GetHistoryRows(history: seq<HistoryRecord>, userId: int)
    ensures var r := GetHistory(history, Some(IntToString(userId)));
      var mine := Filter(history, OfUser(userId));
      && r.Listed?
      && multiset(r.rows) == multiset(mine)
      && (forall h :: h in r.rows <==> h in history && h.userId == userId)
      && SortedDesc(r.rows, DateKey)
      && (forall v :: Filter(r.rows, HasKey(DateKey, v)) == Filter(mine, HasKey(DateKey, v)))
  {
    ParseIntIntToString(userId);
    assert IntToString(userId) != "";
    var mine := Filter(history, OfUser(userId));
    SortFilterMembers(history, OfUser(userId), DateKey);
    forall v ensures Filter(SortDesc(mine, DateKey), HasKey(DateKey, v)) == Filter(mine, HasKey(DateKey, v)) {
      SortStable(mine, DateKey, v);
    }
  }

  /** On calendar days, descending key order means no listed record's event comes before a later one's. */
  lemma GetHistoryNewestFirst(history: seq<HistoryRecord>, userId: int)
    requires forall i :: 0 <= i < |history| ==> ValidDate(history[i].eventDate)
    ensures var r := GetHistory(history, Some(IntToString(userId)));
      r.Listed? && forall i, j :: 0 <= i < j < |r.rows| ==> !Before(r.rows[i].eventDate, r.rows[j].eventDate)
  {
    GetHistoryRows(history, userId);
    var rows := GetHistory(history, Some(IntToString(userId))).rows;
    forall i, j | 0 <= i < j < |rows| ensures !Before(rows[i].eventDate, rows[j].eventDate) {
      assert rows[i] in history && rows[j] in history;
      DayKeyOrdersDates(rows[i].eventDate, rows[j].eventDate);
      DayKeyOrdersDates(rows[j].eventDate, rows[i].eventDate);
      assert DateKey(rows[i]) >= DateKey(rows[j]);
    }
  }

  // ---------------------------------------------------------------- POST /history

  /**
   * The request body. The ids are kept as sent, a number or a text; any other field that is
   * absent or of another type is `None` (`requiredSkills`: absent or null).
   */
  datatype HistoryBody = HistoryBody(
    userId: Field,
    eventId: Field,
    eventName: Option<string>,
    eventDescription: Option<string>,
    eventLocation: Option<string>,
    requiredSkills: Option<ListField>,
    urgency: Option<string>,
    eventDate: Option<string>,
    startTime: Option<string>,
    endTime: Option<string>,
    status: Option<string>)

  datatype HistoryCreate =
    | FieldsRequired               // 400 "User ID, Event ID, and Event Name are required"
    | CreateFailed                 // 500, the row breaks a column constraint or a foreign key
    | Logged(record: HistoryRecord)  // 201

  /** `!userId || !eventId || !eventName`. */
  predicate MissingKeys(b: HistoryBody) {
    !TruthyField(b.userId) || !TruthyField(b.eventId) || !TruthyText(b.eventName)
  }

  /** `status || "upcoming"`. */
  function StatusOrDefault(status: Option<string>): (s: string)
    ensures TruthyText(status) ==> s == status.value
    ensures !TruthyText(status) ==> s == DEFAULT_STATUS
  {
    OrElse(status, DEFAULT_STATUS)
  }

  /**
   * The row `VolunteerHistory.create` is given (its id still to be drawn), or `None`
   * when an id is a text the INTEGER column refuses, a non-null column has no value or
   * the date does not read as a date.
   */
  function RowOf(b: HistoryBody, parse: DateParser, coerce: IdCoercion): (r: Option<HistoryRecord>)
    requires !MissingKeys(b)
    ensures r.Some? <==> (ColumnId(b.userId, coerce).Some? && ColumnId(b.eventId, coerce).Some?
                          && b.eventDescription.Some? && b.eventLocation.Some? && b.requiredSkills.Some?
                          && b.urgency.Some? && b.eventDate.Some? && parse(b.eventDate.value).Some?)
    ensures r.Some? ==> && Some(r.value.userId) == ColumnId(b.userId, coerce)
                        && Some(r.value.eventId) == ColumnId(b.eventId, coerce)
                        && r.value.eventName == b.eventName.value
                        && r.value.status == StatusOrDefault(b.status)
  {
    var userId := ColumnId(b.userId, coerce);
    var eventId := ColumnId(b.eventId, coerce);
    if userId.None? || eventId.None? || b.eventDescription.None? || b.eventLocation.None?
       || b.requiredSkills.None? || b.urgency.None? || b.eventDate.None? || parse(b.eventDate.value).None?
    then None
    else Some(HistoryRecord(0, userId.value, eventId.value, b.eventName.value, b.eventDescription.value,
                            b.eventLocation.value, b.requiredSkills.value, b.urgency.value,
                            parse(b.eventDate.value).value, b.startTime, b.endTime, StatusOrDefault(b.status)))
  }

  /** Whether the row names an existing user and an existing event, as its foreign keys demand. */
  predicate HistoryRefsExist(users: seq<User>, events: map<int, Event>, h: HistoryRecord) {
    UserExists(users, h.userId) && h.eventId in events
  }

  /**
   * `POST /history`: 400 without the three keys; otherwise the row is inserted as given,
   * without looking for an existing record of the same volunteer and event. An id sent as
   * a text passes the check and is converted by the database. A row with an id the
   * database refuses, one that breaks a column constraint, or one naming a missing user
   * or event makes the insert fail.
   */
  method LogParticipation(db: Database, body: HistoryBody, parse: DateParser, coerce: IdCoercion)
    returns (out: HistoryCreate)
    requires db.Valid()
    modifies db
    ensures db.Valid()
    ensures MissingKeys(body) ==> out == FieldsRequired && unchanged(db)
    ensures !MissingKeys(body) ==>
      var row := RowOf(body, parse, coerce);
      if row.None? || !HistoryRowValid(row.value) || !HistoryRefsExist(old(db.users), old(db.events), row.value)
      then out == CreateFailed && unchanged(db)
      else
        && out == Logged(row.value.(id := old(db.nextHistoryId)))
        && db.history == old(db.history) + [out.record]
        && db.nextHistoryId == old(db.nextHistoryId) + 1
        && db.users == old(db.users) && db.profiles == old(db.profiles) && db.events == old(db.events)
        && db.notifications == old(db.notifications)
        && db.nextUserId == old(db.nextUserId) && db.nextNotificationId == old(db.nextNotificationId)
    ensures out.Logged? ==> HistoryRefsExist(db.users, db.events, out.record)
    ensures out.Logged? ==> PairCount(db.history, out.record.userId, out.record.eventId)
                            == PairCount(old(db.history), out.record.userId, out.record.eventId) + 1
  {
    if MissingKeys(body) {
      return FieldsRequired;
    }
    var row := RowOf(body, parse, coerce);
    if row.None? || !HistoryRowValid(row.value) || !HistoryRefsExist(db.users, db.events, row.value) {
      return CreateFailed;
    }
    var stored := db.CreateHistory(row.value);
    PairCountAppend(old(db.history), stored, stored.userId, stored.eventId);
    out := Logged(stored);
  }

  /** Logging the same participation twice stores two records of the pair: nothing refuses the second. */
  method LogTwice(db: Database, body: HistoryBody, parse: DateParser, coerce: IdCoercion)
    returns (first: HistoryCreate, second: HistoryCreate)
    requires db.Valid()
    modifies db
    ensures db.Valid()
    ensures first.Logged? <==> second.Logged?
    ensures first.Logged? ==>
      && second.record == first.record.(id := first.record.id + 1)
      && PairCount(db.history, first.record.userId, first.record.eventId)
         == PairCount(old(db.history), first.record.userId, first.record.eventId) + 2
  {
    first := LogParticipation(db, body, parse, coerce);
    second := LogParticipation(db, body, parse, coerce);
  }

  /**
   * An id sent as numeric text gets past the 400 check and, read by a database that
   * converts decimals, gives the row the same ids as the numbers would.
   */
  lemma TextIdsAccepted(b: HistoryBody, userId: int, eventId: int, parse: DateParser, coerce: IdCoercion)
    requires userId != 0 && eventId != 0 && TruthyText(b.eventName)
    requires b.userId == Str(IntToString(userId)) && b.eventId == Str(IntToString(eventId))
    requires coerce(IntToString(userId)) == Some(userId) && coerce(IntToString(eventId)) == Some(eventId)
    ensures !MissingKeys(b)
    ensures RowOf(b, parse, coerce) == RowOf(b.(userId := Num(userId), eventId := Num(eventId)), parse, coerce)
  {
    assert TruthyField(b.userId) && TruthyField(b.eventId);
  }

  // ---------------------------------------------------------------- PUT /history/:id

  /** `findByPk(id)`: the position of the record with that id. */
  function FindRecord(s: seq<HistoryRecord>, id: int): (r: Option<nat>)
    ensures r.Some? ==> r.value < |s| && s[r.value].id == id
    ensures r.None? <==> forall i :: 0 <= i < |s| ==> s[i].id != id
  {
    if s == [] then None
    else if s[0].id == id then Some(0)
    else match FindRecord(s[1..], id)
      case None => None
      case Some(k) => Some(k + 1)
  }

  datatype StatusUpdate =
    | StatusRequired                  // 400 "Status is required"
    | RecordNotFound                  // 404
    | UpdateFailed                    // 500, an id the database refuses or a status outside the column's enumeration
    | Updated(record: HistoryRecord)  // 200

  /**
   * `PUT /history/:id`: 400 without a status; 500 when the database refuses the path's
   * text as an id, 404 for an unknown id; otherwise the status is overwritten, whatever it
   * was before, as long as the column accepts the new value.
   */
  method UpdateStatus(db: Database, id: string, status: Option<string>, coerce: IdCoercion) returns (out: StatusUpdate)
    requires db.Valid()
    modifies db
    ensures db.Valid()
    ensures !TruthyText(status) ==> out == StatusRequired && unchanged(db)
    ensures TruthyText(status) && coerce(id).None? ==> out == UpdateFailed && unchanged(db)
    ensures TruthyText(status) && coerce(id).Some? ==>
      match FindRecord(old(db.history), coerce(id).value)
      case None => out == RecordNotFound && unchanged(db)
      case Some(i) =>
        if status.value !in STATUSES then out == UpdateFailed && unchanged(db)
        else
          && out == Updated(old(db.history)[i].(status := status.value))
          && db.history == WithStatus(old(db.history), i, status.value)
          && db.users == old(db.users) && db.profiles == old(db.profiles) && db.events == old(db.events)
          && db.notifications == old(db.notifications)
          && db.nextUserId == old(db.nextUserId) && db.nextHistoryId == old(db.nextHistoryId)
          && db.nextNotificationId == old(db.nextNotificationId)
  {
    if !TruthyText(status) {
      return StatusRequired;
    }
    var key := coerce(id);
    if key.None? {
      return UpdateFailed;
    }
    var found := FindRecord(db.history, key.value);
    if found.None? {
      return RecordNotFound;
    }
    var i := found.value;
    if status.value !in STATUSES {
      return UpdateFailed;
    }
    db.SetHistoryStatus(i, status.value);
    out := Updated(db.history[i]);
  }

  /** Any allowed status can follow any other: a completed record can be made upcoming again. */
  lemma AnyTransitionAccepted(s: seq<HistoryRecord>, i: nat, from: string, to: string)
    requires i < |s| && s[i].status == from && to in STATUSES
    ensures WithStatus(s, i, to)[i].status == to
    ensures WithStatus(WithStatus(s, i, to), i, from) == s
  {
    assert WithStatus(WithStatus(s, i, to), i, from)[i] == s[i];
  }
}
