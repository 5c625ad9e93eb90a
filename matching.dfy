/**
 * The matching engine: scoring volunteer profiles against an event and recording an
 * assignment (a history snapshot of the event plus one notification for the volunteer).
 */
module Matching {
  import opened Common
  import opened Text
  import opened Models
  import opened Store
  import opened Ordering
  import opened TimeFormat

  /**
   * `JSON.parse` applied to a text expected to hold an array of strings; `None` when it
   * throws. A text holding any other JSON value is outside the model. The parser belongs
   * to the runtime and is a parameter of the model.
   */
  type Decoder = string -> Option<seq<string>>

  /** Decode-or-default: an array is used as it is, a text is decoded, anything else is empty. */
  function DecodeList(f: ListField, decode: Decoder): (r: seq<string>)
    ensures f.Items? ==> r == f.items
    ensures f.Text? ==> r == (if decode(f.text).Some? then decode(f.text).value else [])
    ensures f.Value? || f.Other? ==> r == []
  {
    match f
    case Items(xs) => xs
    case Text(t) => (match decode(t) case Some(xs) => xs case None => [])
    case Value(_) => []
    case Other => []
  }

  /**
   * Whether a list is stored as a native array or as its JSON text makes no difference,
   * provided the decoder reads back what the encoder wrote.
   */
  lemma DecodeListRepresentationIndependent(xs: seq<string>, encode: seq<string> -> string, decode: Decoder)
    requires decode(encode(xs)) == Some(xs)
    ensures DecodeList(Text(encode(xs)), decode) == DecodeList(Items(xs), decode) == xs
  {
  }

  /** The test "is one of the event's skills". */
  function InList(ev: seq<string>): string -> bool {
    s => s in ev
  }

  /** `volSkills.filter(skill => eventSkills.includes(skill))`. */
  function MatchingSkills(vol: seq<string>, ev: seq<string>): (r: seq<string>)
    ensures |r| == Count(vol, InList(ev))
    ensures forall s :: s in r <==> s in vol && s in ev
  {
    FilterMembers(vol, InList(ev));
    Filter(vol, InList(ev))
  }

  /** The percentage of the event's skills that the volunteer's skills match (0 for no skills required). */
  function MatchScore(vol: seq<string>, ev: seq<string>): (score: real)
    ensures ev == [] ==> score == 0.0
    ensures ev != [] ==> score == Percent(Count(vol, InList(ev)), |ev|)
    ensures 0.0 <= score
    ensures score > 0.0 <==> exists s :: s in vol && s in ev
  {
    if |ev| > 0 then
      SomeSkillMatches(vol, ev);
      Percent(|MatchingSkills(vol, ev)|, |ev|)
    else 0.0
  }

  /** `(c / n) * 100`: the share of `c` in a positive total `n`, in percent. */
  function Percent(c: nat, n: nat): (r: real)
    requires n > 0
    ensures r * (n as real) == 100.0 * (c as real)
    ensures r >= 0.0
    ensures r > 0.0 <==> c > 0
    ensures c <= n ==> r <= 100.0
  {
    PercentOf(c as real, n as real);
    (c as real / n as real) * 100.0
  }

  /** Some skill is matched exactly when the list of matching skills is not empty. */
  lemma SomeSkillMatches(vol: seq<string>, ev: seq<string>)
    ensures |MatchingSkills(vol, ev)| > 0 <==> exists s :: s in vol && s in ev
  {
    var m := MatchingSkills(vol, ev);
    if |m| > 0 {
      assert m[0] in vol && m[0] in ev;
    }
  }

  /** The share `c / n` in percent, for a count `c` of a positive total `n`. */
  lemma PercentOf(c: real, n: real)
    requires n > 0.0 && c >= 0.0
    ensures (c / n) * 100.0 * n == 100.0 * c
    ensures (c / n) * 100.0 >= 0.0
    ensures (c / n) * 100.0 > 0.0 <==> c > 0.0
    ensures c <= n ==> (c / n) * 100.0 <= 100.0
  {
    var q := c / n;
    assert q * n == c;
    assert q >= 0.0;
    assert q > 0.0 <==> c > 0.0;
    if c <= n {
      ScaledAtMost(q * 100.0, n, c);
    }
  }

  /** A duplicate-free filter of a duplicate-free sequence. */
  lemma {:induction false} FilterDistinct<T>(s: seq<T>, p: T -> bool)
    requires Distinct(s)
    ensures Distinct(Filter(s, p))
  {
    if s != [] {
      assert Distinct(s[1..]);
      FilterDistinct(s[1..], p);
      FilterMembers(s[1..], p);
      assert s[0] !in s[1..];
    }
  }

  /** A set has no more elements than the sequence it is drawn from. */
  lemma {:induction false} SetOfSeqSize<T>(s: seq<T>)
    ensures |set x | x in s| <= |s|
  {
    if s != [] {
      SetOfSeqSize(s[1..]);
      assert (set x | x in s) == {s[0]} + (set x | x in s[1..]);
    }
  }

  /** With duplicate-free volunteer skills the score is a percentage. */
  lemma MatchScoreAtMost100(vol: seq<string>, ev: seq<string>)
    requires Distinct(vol)
    ensures MatchScore(vol, ev) <= 100.0
  {
    if ev != [] {
      var m := MatchingSkills(vol, ev);
      FilterDistinct(vol, InList(ev));
      DistinctWithinSet(m, set x | x in ev);
      SetOfSeqSize(ev);
      assert |m| <= |ev|;
    }
  }

  /** `x * n == 100 * c` with `0 <= c <= n` and `n > 0` puts `x` at most 100. */
  lemma ScaledAtMost(x: real, n: real, c: real)
    requires n > 0.0 && 0.0 <= c <= n && x * n == 100.0 * c
    ensures x <= 100.0
  {
    assert x * n <= 100.0 * n;
  }

  /** Repeated volunteer skills are counted once each, so the score can exceed 100. */
  lemma MatchScoreCountsRepeats()
    ensures MatchScore(["Driving", "Driving"], ["Driving"]) == 200.0
  {
    var vol: seq<string> := ["Driving", "Driving"];
    assert Count(vol, InList(["Driving"])) == 2 by {
      assert vol[1..] == ["Driving"];
      assert vol[1..][1..] == [];
    }
  }

  /**
   * Whether some availability entry falls on the event's calendar day. Two texts that both
   * fail to parse compare equal, as their `toDateString()` is "Invalid Date" for both.
   */
  function IsAvailable(avail: seq<string>, eventDate: string, parse: DateParser): (r: bool)
    ensures r <==> exists i :: 0 <= i < |avail| && parse(avail[i]) == parse(eventDate)
  {
    if avail == [] then false
    else if parse(avail[0]) == parse(eventDate) then true
    else
      var r := IsAvailable(avail[1..], eventDate, parse);
      assert r ==> exists i :: 0 <= i < |avail| && parse(avail[i]) == parse(eventDate) by {
        if r {
          var i :| 0 <= i < |avail[1..]| && parse(avail[1..][i]) == parse(eventDate);
          assert parse(avail[i + 1]) == parse(eventDate);
        }
      }
      assert (exists i :: 0 <= i < |avail| && parse(avail[i]) == parse(eventDate)) ==> r by {
        if exists i :: 0 <= i < |avail| && parse(avail[i]) == parse(eventDate) {
          var i :| 0 <= i < |avail| && parse(avail[i]) == parse(eventDate);
          assert i > 0 && avail[1..][i - 1] == avail[i];
        }
      }
      r
  }

  /** The user ids of the history records of an event. */
  function AssignedUserIds(history: seq<HistoryRecord>, eventId: int): (r: seq<int>)
    ensures forall u :: u in r <==> PairCount(history, u, eventId) > 0
  {
    if history == [] then []
    else
      var rest := AssignedUserIds(history[1..], eventId);
      if history[0].eventId == eventId then [history[0].userId] + rest else rest
  }

  /** One row of the suggestion list. */
  datatype Suggestion = Suggestion(
    userId: int,
    fullName: string,
    city: string,
    state: string,
    skills: seq<string>,
    availability: seq<string>,
    preferences: Option<string>,
    matchScore: real,
    isAvailable: bool,
    assignedToEvent: bool)

  /** The scored row of one profile. */
  function ScoreProfile(p: Profile, ev: seq<string>, eventDate: string, assignedIds: seq<int>,
                        decode: Decoder, parse: DateParser): (s: Suggestion)
    ensures s.userId == p.userId
    ensures s.skills == DecodeList(p.skills, decode) && s.availability == DecodeList(p.availability, decode)
  {
    var skills := DecodeList(p.skills, decode);
    var avail := DecodeList(p.availability, decode);
    Suggestion(p.userId, p.fullName, p.city, p.state, skills, avail, p.preferences,
               MatchScore(skills, ev), IsAvailable(avail, eventDate, parse), p.userId in assignedIds)
  }

  /** `volunteers.map(...)`. */
  function ScoreAll(ps: seq<Profile>, ev: seq<string>, eventDate: string, assignedIds: seq<int>,
                    decode: Decoder, parse: DateParser): (r: seq<Suggestion>)
    ensures |r| == |ps|
    ensures forall i :: 0 <= i < |ps| ==> r[i] == ScoreProfile(ps[i], ev, eventDate, assignedIds, decode, parse)
  {
    if ps == [] then []
    else [ScoreProfile(ps[0], ev, eventDate, assignedIds, decode, parse)] + ScoreAll(ps[1..], ev, eventDate, assignedIds, decode, parse)
  }

  /** Only volunteers with some match are shown. */
  predicate Kept(s: Suggestion) {
    s.matchScore > 0.0 || s.isAvailable
  }

  function ScoreOf(s: Suggestion): real {
    s.matchScore
  }

  datatype SuggestionsResult = EventNotFound | Suggested(rows: seq<Suggestion>)

  /** The rows before sorting: every profile scored, those without any match dropped. */
  function Candidates(e: Event, ps: seq<Profile>, history: seq<HistoryRecord>, eventId: int,
                      decode: Decoder, parse: DateParser): seq<Suggestion>
  {
    var ev := DecodeList(e.requiredSkills, decode);
    Filter(ScoreAll(ps, ev, e.eventDate, AssignedUserIds(history, eventId), decode, parse), Kept)
  }

  /**
   * `GET /suggestions/:eventId`: 404 for an unknown event, otherwise the candidates sorted
   * by score, highest first. `ps` are the profile rows in the order the store lists them.
   */
  function Suggestions(events: map<int, Event>, eventId: int, ps: seq<Profile>, history: seq<HistoryRecord>,
                       decode: Decoder, parse: DateParser): (r: SuggestionsResult)
    ensures r.EventNotFound? <==> eventId !in events
  {
    if eventId !in events then EventNotFound
    else Suggested(SortDesc(Candidates(events[eventId], ps, history, eventId, decode, parse), ScoreOf))
  }

  /** The suggestion list is a permutation of the candidates, highest score first, ties in profile order. */
  lemma SuggestionsOrder(events: map<int, Event>, eventId: int, ps: seq<Profile>, history: seq<HistoryRecord>,
                         decode: Decoder, parse: DateParser)
    requires eventId in events
    ensures var r := Suggestions(events, eventId, ps, history, decode, parse);
      var c := Candidates(events[eventId], ps, history, eventId, decode, parse);
      && r.Suggested?
      && multiset(r.rows) == multiset(c)
      && SortedDesc(r.rows, ScoreOf)
      && (forall v :: Filter(r.rows, HasKey(ScoreOf, v)) == Filter(c, HasKey(ScoreOf, v)))
  {
    var c := Candidates(events[eventId], ps, history, eventId, decode, parse);
    forall v ensures Filter(SortDesc(c, ScoreOf), HasKey(ScoreOf, v)) == Filter(c, HasKey(ScoreOf, v)) {
      SortStable(c, ScoreOf, v);
    }
  }

  /** Exactly the profiles with a positive score or an available date are listed. */
  lemma SuggestionsMembers(events: map<int, Event>, eventId: int, ps: seq<Profile>, history: seq<HistoryRecord>,
                           decode: Decoder, parse: DateParser)
    requires eventId in events
    ensures var r := Suggestions(events, eventId, ps, history, decode, parse);
      var e := events[eventId];
      var ev := DecodeList(e.requiredSkills, decode);
      var ids := AssignedUserIds(history, eventId);
      && r.Suggested?
      && (forall i :: 0 <= i < |ps| ==>
            (ScoreProfile(ps[i], ev, e.eventDate, ids, decode, parse) in r.rows
             <==> Kept(ScoreProfile(ps[i], ev, e.eventDate, ids, decode, parse))))
      && (forall s :: s in r.rows ==>
            Kept(s) && exists i :: 0 <= i < |ps| && s == ScoreProfile(ps[i], ev, e.eventDate, ids, decode, parse))
  {
    var e := events[eventId];
    var ev := DecodeList(e.requiredSkills, decode);
    var ids := AssignedUserIds(history, eventId);
    var all := ScoreAll(ps, ev, e.eventDate, ids, decode, parse);
    var rows := SortDesc(Filter(all, Kept), ScoreOf);
    assert Suggestions(events, eventId, ps, history, decode, parse).rows == rows;
    SortFilterMembers(all, Kept, ScoreOf);
    ScoredRowsMembers(ps, ev, e.eventDate, ids, decode, parse, rows);
  }

  /** A list holding exactly the kept scored rows holds a profile's row exactly when it is kept, and no other row. */
  lemma ScoredRowsMembers(ps: seq<Profile>, ev: seq<string>, eventDate: string, ids: seq<int>,
                          decode: Decoder, parse: DateParser, rows: seq<Suggestion>)
    requires forall x :: x in rows <==> x in ScoreAll(ps, ev, eventDate, ids, decode, parse) && Kept(x)
    ensures forall i :: 0 <= i < |ps| ==>
      (ScoreProfile(ps[i], ev, eventDate, ids, decode, parse) in rows <==> Kept(ScoreProfile(ps[i], ev, eventDate, ids, decode, parse)))
    ensures forall s :: s in rows ==>
      Kept(s) && exists i :: 0 <= i < |ps| && s == ScoreProfile(ps[i], ev, eventDate, ids, decode, parse)
  {
    var all := ScoreAll(ps, ev, eventDate, ids, decode, parse);
    forall i | 0 <= i < |ps|
      ensures ScoreProfile(ps[i], ev, eventDate, ids, decode, parse) in rows
              <==> Kept(ScoreProfile(ps[i], ev, eventDate, ids, decode, parse))
    {
      assert all[i] == ScoreProfile(ps[i], ev, eventDate, ids, decode, parse);
    }
    forall s | s in rows
      ensures Kept(s) && exists i :: 0 <= i < |ps| && s == ScoreProfile(ps[i], ev, eventDate, ids, decode, parse)
    {
      var i :| 0 <= i < |all| && all[i] == s;
    }
  }

  /** Each listed row carries its profile's score, availability and assignment flag. */
  lemma SuggestionsRows(events: map<int, Event>, eventId: int, ps: seq<Profile>, history: seq<HistoryRecord>,
                        decode: Decoder, parse: DateParser)
    requires eventId in events
    ensures var r := Suggestions(events, eventId, ps, history, decode, parse);
      var e := events[eventId];
      var ev := DecodeList(e.requiredSkills, decode);
      && r.Suggested?
      && (forall s :: s in r.rows ==>
            && s.matchScore == MatchScore(s.skills, ev)
            && s.isAvailable == IsAvailable(s.availability, e.eventDate, parse)
            && (s.assignedToEvent <==> PairCount(history, s.userId, eventId) > 0))
  {
    var e := events[eventId];
    var ev := DecodeList(e.requiredSkills, decode);
    var ids := AssignedUserIds(history, eventId);
    SuggestionsMembers(events, eventId, ps, history, decode, parse);
  }

  // ---------------------------------------------------------------- assignment

  /** How `POST /assign` ends. */
  datatype AssignOutcome =
    | Assigned(record: HistoryRecord)
    | InvalidIds            // 400 "Valid Volunteer ID and Event ID are required"
    | AlreadyAssigned       // 409 "Volunteer already assigned to this event"
    | VolunteerNotFound     // 404
    | AssignEventNotFound   // 404
    | MissingEventFields    // 400 "Event is missing required fields"
    | EventNameTooLong      // 400
    | InvalidEventDate      // 400 "Invalid event date format"

  function AssignStatus(o: AssignOutcome): int {
    match o
    case Assigned(_) => 201
    case InvalidIds => 400
    case AlreadyAssigned => 409
    case VolunteerNotFound => 404
    case AssignEventNotFound => 404
    case MissingEventFields => 400
    case EventNameTooLong => 400
    case InvalidEventDate => 400
  }

  /**
   * The checks of `POST /assign`, in the order the handler makes them; `None` when all
   * pass. The ids are the results of `parseInt`, `None` standing for NaN.
   */
  function AssignRefusal(users: seq<User>, events: map<int, Event>, history: seq<HistoryRecord>,
                         volunteerId: Option<int>, eventId: Option<int>, parse: DateParser): Option<AssignOutcome>
  {
    if !TruthyInt(volunteerId) || !TruthyInt(eventId) then Some(InvalidIds)
    else if PairCount(history, volunteerId.value, eventId.value) > 0 then Some(AlreadyAssigned)
    else if !UserExists(users, volunteerId.value) then Some(VolunteerNotFound)
    else if eventId.value !in events then Some(AssignEventNotFound)
    else
      var e := events[eventId.value];
      if e.eventName == "" || e.eventDescription == "" || e.eventLocation == "" || e.eventDate == "" then
        Some(MissingEventFields)
      else if |e.eventName| > 100 then Some(EventNameTooLong)
      else if parse(e.eventDate).None? then Some(InvalidEventDate)
      else None
  }

  /** The ids are checked first, and an existing record for the pair is refused before any other lookup. */
  lemma AssignRefusalOrder(users: seq<User>, events: map<int, Event>, history: seq<HistoryRecord>,
                           volunteerId: Option<int>, eventId: Option<int>, parse: DateParser)
    ensures !TruthyInt(volunteerId) || !TruthyInt(eventId)
            ==> AssignRefusal(users, events, history, volunteerId, eventId, parse) == Some(InvalidIds)
    ensures TruthyInt(volunteerId) && TruthyInt(eventId) && PairCount(history, volunteerId.value, eventId.value) > 0
            ==> AssignRefusal(users, events, history, volunteerId, eventId, parse) == Some(AlreadyAssigned)
    ensures AssignRefusal(users, events, history, volunteerId, eventId, parse).None?
            ==> TruthyInt(volunteerId) && TruthyInt(eventId)
                && PairCount(history, volunteerId.value, eventId.value) == 0
                && UserExists(users, volunteerId.value) && eventId.value in events
  {
  }

  /** `(event.urgency || "medium").toLowerCase()`, cut to 20 characters. */
  function SnapshotUrgency(u: string): (r: string)
    ensures |r| <= 20 && IsLower(r)
    ensures var l := Lower(if u == "" then "medium" else u);
      |r| == (if |l| <= 20 then |l| else 20) && r == l[..|r|]
  {
    var l := Lower(if u == "" then "medium" else u);
    LowerIsLower(if u == "" then "medium" else u);
    Take(l, 20)
  }

  /** The history record that freezes the event as it is at assignment time. */
  function Snapshot(id: int, volunteerId: int, eventId: int, e: Event, day: Date, decode: Decoder): (h: HistoryRecord)
    ensures HistoryRowValid(h)
    ensures h.id == id && h.userId == volunteerId && h.eventId == eventId
    ensures h.status == DEFAULT_STATUS && h.eventDate == day
  {
    HistoryRecord(id, volunteerId, eventId,
                  Take(Trim(e.eventName), 100),
                  Trim(e.eventDescription),
                  Take(Trim(e.eventLocation), 255),
                  Items(DecodeList(e.requiredSkills, decode)),
                  SnapshotUrgency(e.urgency),
                  day,
                  FormatTimeForSql(e.startTime),
                  FormatTimeForSql(e.endTime),
                  "upcoming")
  }

  /**
   * The event's texts as the snapshot keeps them: trimmed, the name and the location cut
   * to their column widths.
   */
  lemma SnapshotTexts(id: int, volunteerId: int, eventId: int, e: Event, day: Date, decode: Decoder)
    ensures var h := Snapshot(id, volunteerId, eventId, e, day, decode);
      h.eventName == Trim(e.eventName)[..|h.eventName|]
      && |h.eventName| == (if |Trim(e.eventName)| <= 100 then |Trim(e.eventName)| else 100)
    ensures var h := Snapshot(id, volunteerId, eventId, e, day, decode);
      h.eventLocation == Trim(e.eventLocation)[..|h.eventLocation|]
      && |h.eventLocation| == (if |Trim(e.eventLocation)| <= 255 then |Trim(e.eventLocation)| else 255)
    ensures var h := Snapshot(id, volunteerId, eventId, e, day, decode);
      h.eventDescription == Trim(e.eventDescription) && (h.eventName == "" <==> Blank(e.eventName))
  {
  }

  /**
   * The rest of the snapshot: the urgency in lower case with "medium" for a missing one,
   * cut to 20, the decoded skills, and a time exactly when the event has one.
   */
  lemma SnapshotOfEvent(id: int, volunteerId: int, eventId: int, e: Event, day: Date, decode: Decoder)
    ensures var h := Snapshot(id, volunteerId, eventId, e, day, decode);
      var l := Lower(if e.urgency == "" then "medium" else e.urgency);
      IsLower(h.urgency) && |h.urgency| == (if |l| <= 20 then |l| else 20) && h.urgency == l[..|h.urgency|]
    ensures e.urgency == "" ==> Snapshot(id, volunteerId, eventId, e, day, decode).urgency == "medium"
    ensures var h := Snapshot(id, volunteerId, eventId, e, day, decode);
      h.requiredSkills == Items(DecodeList(e.requiredSkills, decode))
    ensures var h := Snapshot(id, volunteerId, eventId, e, day, decode);
      && (h.startTime.None? <==> (e.startTime.NoTime? || e.startTime == TimeText("")))
      && (h.endTime.None? <==> (e.endTime.NoTime? || e.endTime == TimeText("")))
  {
    assert Lower("medium") == "medium";
  }

  /** The text of the assignment notification. */
  function AssignmentMessage(e: Event, day: Date, longDate: Date -> string): string {
    "You have an event coming up! \"" + e.eventName + "\" on " + longDate(day)
      + StartTimeClause(e.startTime) + " at " + e.eventLocation + "."
  }

  /** The notification announcing the assignment to the volunteer. */
  function AssignmentNotice(id: int, volunteerId: int, e: Event, day: Date, longDate: Date -> string, now: int): (n: Notification)
    requires |e.eventName| <= 100
    ensures NotificationRowValid(n)
    ensures n.userId == volunteerId && n.kind == "assignment" && !n.read && n.eventName == Some(e.eventName)
  {
    Notification(id, volunteerId, AssignmentMessage(e, day, longDate), "assignment", Some(e.eventName), false, now)
  }

  /**
   * `POST /assign`. On success exactly one history record and exactly one notification
   * are appended; on any refusal nothing changes. `now` is the creation timestamp.
   */
  method Assign(db: Database, volunteerId: Option<int>, eventId: Option<int>,
                decode: Decoder, parse: DateParser, longDate: Date -> string, now: int)
    returns (out: AssignOutcome)
    requires db.Valid()
    modifies db
    ensures db.Valid()
    ensures var refusal := AssignRefusal(old(db.users), old(db.events), old(db.history), volunteerId, eventId, parse);
      if refusal.Some? then
        out == refusal.value && unchanged(db)
      else
        var e := old(db.events)[eventId.value];
        var day := parse(e.eventDate).value;
        var h := Snapshot(old(db.nextHistoryId), volunteerId.value, eventId.value, e, day, decode);
        && out == Assigned(h)
        && db.history == old(db.history) + [h]
        && db.notifications == old(db.notifications)
             + [AssignmentNotice(old(db.nextNotificationId), volunteerId.value, e, day, longDate, now)]
        && db.users == old(db.users) && db.profiles == old(db.profiles) && db.events == old(db.events)
        && db.nextUserId == old(db.nextUserId)
        && db.nextHistoryId == old(db.nextHistoryId) + 1
        && db.nextNotificationId == old(db.nextNotificationId) + 1
    ensures out.Assigned? ==> old(PairCount(db.history, volunteerId.value, eventId.value)) == 0
                              && PairCount(db.history, volunteerId.value, eventId.value) == 1
  {
    // the checks in the handler's order; the pre-check is the only guard against a
    // second record for the pair, as the table declares no unique key on it
    var refusal := AssignRefusal(db.users, db.events, db.history, volunteerId, eventId, parse);
    if refusal.Some? {
      return refusal.value;
    }
    var vid, eid := volunteerId.value, eventId.value;
    var e := db.events[eid];
    var h := RecordAssignment(db, vid, eid, e, parse(e.eventDate).value, decode, longDate, now);
    out := Assigned(h);
  }

  /**
   * The writes of a permitted assignment: the history record with the event's snapshot,
   * then the volunteer's notification, each under the next id of its table.
   */
  method RecordAssignment(db: Database, vid: int, eid: int, e: Event, day: Date,
                          decode: Decoder, longDate: Date -> string, now: int)
    returns (h: HistoryRecord)
    requires db.Valid() && |e.eventName| <= 100
    requires UserExists(db.users, vid) && eid in db.events
    modifies db
    ensures db.Valid()
    ensures h == Snapshot(old(db.nextHistoryId), vid, eid, e, day, decode)
    ensures db.history == old(db.history) + [h]
    ensures db.notifications == old(db.notifications)
              + [AssignmentNotice(old(db.nextNotificationId), vid, e, day, longDate, now)]
    ensures db.users == old(db.users) && db.profiles == old(db.profiles) && db.events == old(db.events)
    ensures db.nextUserId == old(db.nextUserId)
    ensures db.nextHistoryId == old(db.nextHistoryId) + 1
    ensures db.nextNotificationId == old(db.nextNotificationId) + 1
    ensures PairCount(db.history, vid, eid) == old(PairCount(db.history, vid, eid)) + 1
  {
    h := db.CreateHistory(Snapshot(0, vid, eid, e, day, decode));
    PairCountAppend(old(db.history), h, vid, eid);
    var _ := db.CreateNotification(AssignmentNotice(0, vid, e, day, longDate, now));
  }

  /**
   * Assigning the same pair twice: the second call is refused with 409 and the store
   * holds one record and one notification more than before the first call.
   */
  method AssignTwice(db: Database, volunteerId: int, eventId: int,
                     decode: Decoder, parse: DateParser, longDate: Date -> string, now: int)
    returns (first: AssignOutcome, second: AssignOutcome)
    requires db.Valid()
    requires PairCount(db.history, volunteerId, eventId) == 0
    modifies db
    ensures db.Valid()
    ensures first.Assigned? ==> second == AlreadyAssigned
    ensures first.Assigned? ==> |db.history| == old(|db.history|) + 1
                                && |db.notifications| == old(|db.notifications|) + 1
    ensures !first.Assigned? ==> unchanged(db)
    ensures PairCount(db.history, volunteerId, eventId) <= 1
  {
    first := Assign(db, Some(volunteerId), Some(eventId), decode, parse, longDate, now);
    second := Assign(db, Some(volunteerId), Some(eventId), decode, parse, longDate, now);
  }
}
