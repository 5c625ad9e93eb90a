/**
 * The rows of the five database tables, with the column constraints their model
 * declarations impose (allowed values, defaults, column widths, nullability).
 * A nullable column is an `Option`; a non-null column is a plain value.
 */
module Models {
  import opened Common

  /** The skill vocabulary shared by the event form, the profile form and event creation. */
  const SKILLS: seq<string> := ["Communication", "Teamwork", "Organized", "Adaptability", "Driving", "English", "Spanish"]

  /** The urgency vocabulary of events. */
  const URGENCIES: seq<string> := ["low", "medium", "high", "critical"]

  // ---------------------------------------------------------------- Users

  const ROLES: seq<string> := ["volunteer", "admin"]
  const DEFAULT_ROLE: string := "volunteer"

  datatype User = User(id: int, email: string, passwordHash: string, role: string)

  /** The column constraints of a user row: a 255-wide email, a role from the enumeration. */
  predicate UserRowValid(u: User) {
    |u.email| <= 255 && |u.passwordHash| <= 255 && u.role in ROLES
  }

  // ---------------------------------------------------------------- UserProfiles

  /** A profile row; `userId` is its primary key. */
  datatype Profile = Profile(
    userId: int,
    fullName: string,
    address1: string,
    address2: Option<string>,
    city: string,
    state: string,
    zip: string,
    skills: ListField,
    preferences: Option<string>,
    availability: ListField)

  /** The widths of the profile columns. */
  predicate ProfileRowValid(p: Profile) {
    && |p.fullName| <= 50
    && |p.address1| <= 100
    && (p.address2.Some? ==> |p.address2.value| <= 100)
    && |p.city| <= 100
    && |p.state| <= 2
    && |p.zip| <= 9
  }

  // ---------------------------------------------------------------- Events

  /** A time column as the driver hands it over: missing, a text, or a Date's hours/minutes/seconds. */
  datatype TimeValue = NoTime | TimeText(text: string) | TimeOfDay(hours: nat, minutes: nat, seconds: nat)

  /** An event row (the table's key, its id, is the key of the event store). */
  datatype Event = Event(
    eventName: string,
    eventDescription: string,
    eventLocation: string,
    requiredSkills: ListField,
    urgency: string,
    eventDate: string,
    startTime: TimeValue,
    endTime: TimeValue)

  // ---------------------------------------------------------------- VolunteerHistory

  const STATUSES: seq<string> := ["upcoming", "completed", "cancelled", "in-progress"]
  const DEFAULT_STATUS: string := "upcoming"

  /** A participation record: the volunteer, the event and a snapshot of the event's fields. */
  datatype HistoryRecord = HistoryRecord(
    id: int,
    userId: int,
    eventId: int,
    eventName: string,
    eventDescription: string,
    eventLocation: string,
    requiredSkills: ListField,
    urgency: string,
    eventDate: Date,
    startTime: Option<string>,
    endTime: Option<string>,
    status: string)

  /** The column constraints of a history row: widths 100/255/20 and the status enumeration. */
  predicate HistoryRowValid(h: HistoryRecord) {
    && |h.eventName| <= 100
    && |h.eventLocation| <= 255
    && |h.urgency| <= 20
    && h.status in STATUSES
  }

  // ---------------------------------------------------------------- Notifications

  const NOTIFICATION_TYPES: seq<string> := ["assignment", "update", "reminder", "cancellation"]

  /** A notification row; `createdAt` is the creation timestamp. */
  datatype Notification = Notification(
    id: int,
    userId: int,
    message: string,
    kind: string,
    eventName: Option<string>,
    read: bool,
    createdAt: int)

  /** The column constraints of a notification row: the type enumeration and a 100-wide event name. */
  predicate NotificationRowValid(n: Notification) {
    && n.kind in NOTIFICATION_TYPES
    && (n.eventName.Some? ==> |n.eventName.value| <= 100)
  }

  /** Every value the enumerations declare as a default satisfies them, and the status column fits its values. */
  lemma DefaultsAreAllowed()
    ensures DEFAULT_ROLE in ROLES
    ensures DEFAULT_STATUS in STATUSES
    ensures forall s :: s in STATUSES ==> |s| <= 20
  {
  }
}
