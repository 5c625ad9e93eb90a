/**
 * `GET /profile` and `POST /profile`: the signed-in user's own profile, read back or
 * null, and saved after the body has been normalised and checked against the schema.
 * The user id is the `sub` of the verified token.
 */
module Profiles {
  import opened Common
  import opened Text
  import opened Models
  import opened Store

  /** The 50 states and the District of Columbia, in the four rows of their declaration. */
  const STATES_ROW1: set<string> :=
    {"AL", "AK", "AZ", "AR", "CA", "CO", "CT", "DE", "DC", "FL", "GA", "HI", "ID", "IL", "IN", "IA"}
  const STATES_ROW2: set<string> :=
    {"KS", "KY", "LA", "ME", "MD", "MA", "MI", "MN", "MS", "MO", "MT", "NE", "NV", "NH", "NJ", "NM"}
  const STATES_ROW3: set<string> :=
    {"NY", "NC", "ND", "OH", "OK", "OR", "PA", "RI", "SC", "SD", "TN", "TX", "UT", "VT", "VA", "WA"}
  const STATES_ROW4: set<string> := {"WV", "WI", "WY"}
  const STATE_CODES: set<string> := STATES_ROW1 + STATES_ROW2 + STATES_ROW3 + STATES_ROW4

  predicate IsStateCode(s: string) {
    s in STATE_CODES
  }

  /** Every state code has two letters. */
  lemma StateCodesHaveTwoLetters(s: string)
    requires IsStateCode(s)
    ensures |s| == 2
  {
    if s in STATES_ROW1 {
      RowOfTwoLetters(s, STATES_ROW1);
    } else if s in STATES_ROW2 {
      RowOfTwoLetters(s, STATES_ROW2);
    } else if s in STATES_ROW3 {
      RowOfTwoLetters(s, STATES_ROW3);
    } else {
      RowOfTwoLetters(s, STATES_ROW4);
    }
  }

  /** One row at a time. */
  lemma RowOfTwoLetters(s: string, row: set<string>)
    requires s in row
    requires row == STATES_ROW1 || row == STATES_ROW2 || row == STATES_ROW3 || row == STATES_ROW4
    ensures |s| == 2
  {
  }

  /** The request body. A text field that is absent or not a text is `None`; `userId` is a number the body may carry. */
  datatype ProfileBody = ProfileBody(
    userId: Option<int>,
    fullName: Option<string>,
    address1: Option<string>,
    address2: Option<string>,
    city: Option<string>,
    state: Option<string>,
    zip: Option<string>,
    skills: ListField,
    preferences: Option<string>,
    availability: ListField)

  /** The body after normalisation, as it goes into the schema. */
  datatype Payload = Payload(
    fullName: Option<string>,
    address1: Option<string>,
    address2: Option<string>,
    city: Option<string>,
    state: Option<string>,
    zip: Option<string>,
    skills: seq<string>,
    preferences: Option<string>,
    availability: seq<string>)

  // ---------------------------------------------------------------- normalisation

  /** `toArray`: an array as it is, a non-empty text as a one-element list, anything else as `[]`. */
  function ToArray(f: ListField): (r: seq<string>)
    ensures f.Items? ==> r == f.items
    ensures f.Text? && f.text != "" ==> r == [f.text]
    ensures (f.Text? && f.text == "") || f.Value? || f.Other? ==> r == []
  {
    match f
    case Items(xs) => xs
    case Text(t) => if t != "" then [t] else []
    case Value(_) => []
    case Other => []
  }

  function NonEmpty(s: string): bool {
    s != ""
  }

  /** `toArray(value).filter(Boolean)`. */
  function Compact(f: ListField): seq<string> {
    Filter(ToArray(f), NonEmpty)
  }

  /** What `Compact` keeps: the non-empty entries, in order, and all of them when none is empty. */
  lemma CompactMembers(f: ListField)
    ensures forall s :: s in Compact(f) <==> s in ToArray(f) && s != ""
    ensures |Compact(f)| == Count(ToArray(f), NonEmpty)
    ensures (forall i :: 0 <= i < |ToArray(f)| ==> ToArray(f)[i] != "") ==> Compact(f) == ToArray(f)
  {
    var t := ToArray(f);
    assert Compact(f) == Filter(t, NonEmpty);
    FilterMembers(t, NonEmpty);
    if forall i :: 0 <= i < |t| ==> t[i] != "" {
      FilterAll(t, NonEmpty);
    }
  }

  /** The payload: the lists compacted, a missing or empty `address2` or `preferences` made null. */
  function Normalize(b: ProfileBody): (p: Payload)
    ensures p.address2.Some? <==> TruthyText(b.address2)
    ensures p.preferences.Some? <==> TruthyText(b.preferences)
    ensures p.address2.Some? ==> p.address2 == b.address2 && p.address2.value != ""
    ensures p.preferences.Some? ==> p.preferences == b.preferences && p.preferences.value != ""
    ensures p.fullName == b.fullName && p.address1 == b.address1 && p.city == b.city
    ensures p.state == b.state && p.zip == b.zip
  {
    Payload(b.fullName, b.address1, OrNull(b.address2), b.city, b.state, b.zip,
            Compact(b.skills), OrNull(b.preferences), Compact(b.availability))
  }

  /** No list entry that reaches the schema is empty. */
  lemma NormalizeDropsEmptyEntries(b: ProfileBody)
    ensures "" !in Normalize(b).skills && "" !in Normalize(b).availability
  {
    CompactMembers(b.skills);
    CompactMembers(b.availability);
  }

  // ---------------------------------------------------------------- the schema

  datatype ProfileField = FullName | Address1 | Address2 | City | State | Zip | Skills | Preferences | Availability

  /** One schema violation. */
  datatype ProfileError =
    | Required(field: ProfileField)
    | TooLong(field: ProfileField)
    | StateNotAllowed
    | ZipFormat
    | NoSkills
    | SkillTooLong(skill: string)
    | NoAvailability
    | InvalidDate(entry: string)

  /** `/^\d{5}(\d{4})?$/`: five digits, or nine. */
  predicate ZipOk(z: string) {
    AllDigits(z) && (|z| == 5 || |z| == 9)
  }

  /** `string().max(n).required()`: a missing or empty text is reported as missing, a long one as too long. */
  function RequiredTextErrors(f: ProfileField, v: Option<string>, max: nat): (errs: seq<ProfileError>)
    ensures forall e :: e in errs ==> e == Required(f) || e == TooLong(f)
    ensures Required(f) in errs <==> !TruthyText(v)
    ensures TooLong(f) in errs <==> TruthyText(v) && |v.value| > max
  {
    if !TruthyText(v) then [Required(f)] else if |v.value| > max then [TooLong(f)] else []
  }

  /** `string().max(n).nullable()`. */
  function NullableTextErrors(f: ProfileField, v: Option<string>, max: nat): (errs: seq<ProfileError>)
    ensures forall e :: e in errs ==> e == TooLong(f)
    ensures TooLong(f) in errs <==> v.Some? && |v.value| > max
  {
    if v.Some? && |v.value| > max then [TooLong(f)] else []
  }

  /**
   * `string().oneOf(STATE_CODES).required()`: the `oneOf` test skips an absent value but
   * runs before every other test of a present one, and when it fails the field's other
   * tests do not run; so `""` is reported as not allowed only.
   */
  function StateErrors(v: Option<string>): (errs: seq<ProfileError>)
    ensures forall e :: e in errs ==> e == Required(State) || e == StateNotAllowed
    ensures Required(State) in errs <==> v.None?
    ensures StateNotAllowed in errs <==> v.Some? && !IsStateCode(v.value)
  {
    if v.None? then [Required(State)] else if !IsStateCode(v.value) then [StateNotAllowed] else []
  }

  /**
   * `string().matches(zip).required()`: both tests run; `matches` skips an absent value but
   * not `""`, so `""` is reported both as not matching and as missing.
   */
  function ZipErrors(v: Option<string>): (errs: seq<ProfileError>)
    ensures forall e :: e in errs ==> e == Required(Zip) || e == ZipFormat
    ensures Required(Zip) in errs <==> !TruthyText(v)
    ensures ZipFormat in errs <==> v.Some? && !ZipOk(v.value)
  {
    if v.None? then [Required(Zip)]
    else if v.value == "" then [ZipFormat, Required(Zip)]
    else if !ZipOk(v.value) then [ZipFormat]
    else []
  }

  /** One error for each skill over 100 characters, in list order. */
  function LongSkills(xs: seq<string>): (errs: seq<ProfileError>)
    ensures |errs| <= |xs|
  {
    if xs == [] then []
    else (if |xs[0]| > 100 then [SkillTooLong(xs[0])] else []) + LongSkills(xs[1..])
  }

  /** The availability test: a non-empty text that reads as a date. */
  predicate DateEntryOk(s: string, parse: DateParser) {
    s != "" && parse(s).Some?
  }

  /** One error for each availability entry that is not a date, in list order. */
  function BadDates(xs: seq<string>, parse: DateParser): (errs: seq<ProfileError>)
    ensures |errs| <= |xs|
  {
    if xs == [] then []
    else (if !DateEntryOk(xs[0], parse) then [InvalidDate(xs[0])] else []) + BadDates(xs[1..], parse)
  }

  lemma {:induction false} LongSkillsExact(xs: seq<string>)
    ensures forall e :: e in LongSkills(xs) ==> e.SkillTooLong?
    ensures forall s :: SkillTooLong(s) in LongSkills(xs) <==> s in xs && |s| > 100
  {
    if xs != [] {
      LongSkillsExact(xs[1..]);
      assert xs == [xs[0]] + xs[1..];
    }
  }

  lemma {:induction false} BadDatesExact(xs: seq<string>, parse: DateParser)
    ensures forall e :: e in BadDates(xs, parse) ==> e.InvalidDate?
    ensures forall s :: InvalidDate(s) in BadDates(xs, parse) <==> s in xs && !DateEntryOk(s, parse)
  {
    if xs != [] {
      BadDatesExact(xs[1..], parse);
      assert xs == [xs[0]] + xs[1..];
    }
  }

  function SkillsErrors(xs: seq<string>): seq<ProfileError> {
    (if xs == [] then [NoSkills] else []) + LongSkills(xs)
  }

  function AvailabilityErrors(xs: seq<string>, parse: DateParser): seq<ProfileError> {
    (if xs == [] then [NoAvailability] else []) + BadDates(xs, parse)
  }

  /** The violations of the text fields, field by field. */
  function TextErrors(p: Payload): seq<ProfileError> {
    RequiredTextErrors(FullName, p.fullName, 50)
      + RequiredTextErrors(Address1, p.address1, 100)
      + NullableTextErrors(Address2, p.address2, 100)
      + RequiredTextErrors(City, p.city, 100)
      + StateErrors(p.state)
      + ZipErrors(p.zip)
      + NullableTextErrors(Preferences, p.preferences, 1000)
  }

  /**
   * Every violation of the schema: validation does not stop at the first. The order of
   * the messages is not part of the model.
   */
  function ProfileErrors(p: Payload, parse: DateParser): seq<ProfileError> {
    TextErrors(p) + SkillsErrors(p.skills) + AvailabilityErrors(p.availability, parse)
  }

  /** A text error is in the list exactly when one of the text rules produced it. */
  lemma InTextErrors(p: Payload, e: ProfileError)
    ensures e in TextErrors(p) <==>
      || e in RequiredTextErrors(FullName, p.fullName, 50)
      || e in RequiredTextErrors(Address1, p.address1, 100)
      || e in NullableTextErrors(Address2, p.address2, 100)
      || e in RequiredTextErrors(City, p.city, 100)
      || e in StateErrors(p.state)
      || e in ZipErrors(p.zip)
      || e in NullableTextErrors(Preferences, p.preferences, 1000)
  {
  }

  /** No state error exactly for a state code, and no zip error exactly for a well-formed zip. */
  lemma StateZipErrorsEmpty(state: Option<string>, zip: Option<string>)
    ensures StateErrors(state) == [] <==> TruthyText(state) && IsStateCode(state.value)
    ensures ZipErrors(zip) == [] <==> TruthyText(zip) && ZipOk(zip.value)
  {
    if state.Some? && IsStateCode(state.value) {
      StateCodesHaveTwoLetters(state.value);
    }
  }

  /** The text errors are none exactly when every text rule holds. */
  lemma TextErrorsEmpty(p: Payload)
    ensures TextErrors(p) == [] <==>
      && TruthyText(p.fullName) && |p.fullName.value| <= 50
      && TruthyText(p.address1) && |p.address1.value| <= 100
      && (p.address2.Some? ==> |p.address2.value| <= 100)
      && TruthyText(p.city) && |p.city.value| <= 100
      && TruthyText(p.state) && IsStateCode(p.state.value)
      && TruthyText(p.zip) && ZipOk(p.zip.value)
      && (p.preferences.Some? ==> |p.preferences.value| <= 1000)
  {
    StateZipErrorsEmpty(p.state, p.zip);
  }

  /** The schema as one statement: the rules every accepted payload meets. */
  predicate SchemaValid(p: Payload, parse: DateParser) {
    && TruthyText(p.fullName) && |p.fullName.value| <= 50
    && TruthyText(p.address1) && |p.address1.value| <= 100
    && (p.address2.Some? ==> |p.address2.value| <= 100)
    && TruthyText(p.city) && |p.city.value| <= 100
    && TruthyText(p.state) && IsStateCode(p.state.value)
    && TruthyText(p.zip) && ZipOk(p.zip.value)
    && |p.skills| >= 1 && (forall i :: 0 <= i < |p.skills| ==> |p.skills[i]| <= 100)
    && (p.preferences.Some? ==> |p.preferences.value| <= 1000)
    && |p.availability| >= 1 && (forall i :: 0 <= i < |p.availability| ==> DateEntryOk(p.availability[i], parse))
  }

  /** The error list is empty exactly when the payload meets every rule of the schema. */
  lemma {:induction false} LongSkillsNone(xs: seq<string>)
    ensures LongSkills(xs) == [] <==> forall i :: 0 <= i < |xs| ==> |xs[i]| <= 100
  {
    if xs != [] {
      LongSkillsNone(xs[1..]);
      assert forall i :: 1 <= i < |xs| ==> xs[i] == xs[1..][i - 1];
    }
  }

  lemma {:induction false} BadDatesNone(xs: seq<string>, parse: DateParser)
    ensures BadDates(xs, parse) == [] <==> forall i :: 0 <= i < |xs| ==> DateEntryOk(xs[i], parse)
  {
    if xs != [] {
      BadDatesNone(xs[1..], parse);
      assert forall i :: 1 <= i < |xs| ==> xs[i] == xs[1..][i - 1];
    }
  }

  /** The error list is empty exactly when the payload meets every rule of the schema. */
  lemma ProfileErrorsEmpty(p: Payload, parse: DateParser)
    ensures ProfileErrors(p, parse) == [] <==> SchemaValid(p, parse)
  {
    TextErrorsEmpty(p);
    LongSkillsNone(p.skills);
    BadDatesNone(p.availability, parse);
  }

  /** An error is in the list exactly when the text rules, the skills rule or the availability rule produced it. */
  lemma InProfileErrors(p: Payload, parse: DateParser, e: ProfileError)
    ensures e in ProfileErrors(p, parse) <==>
      e in TextErrors(p) || e in SkillsErrors(p.skills) || e in AvailabilityErrors(p.availability, parse)
  {
  }

  /** A list error is in the list exactly when the skills rule or the availability rule produced it. */
  lemma ListErrorIn(p: Payload, parse: DateParser, e: ProfileError)
    requires e.NoSkills? || e.SkillTooLong? || e.NoAvailability? || e.InvalidDate?
    ensures e in ProfileErrors(p, parse) <==> e in SkillsErrors(p.skills) || e in AvailabilityErrors(p.availability, parse)
  {
    InProfileErrors(p, parse, e);
    InTextErrors(p, e);
  }

  /** A text error is in the list exactly when a text rule produced it. */
  lemma TextErrorIn(p: Payload, parse: DateParser, e: ProfileError)
    requires !e.NoSkills? && !e.SkillTooLong? && !e.NoAvailability? && !e.InvalidDate?
    ensures e in ProfileErrors(p, parse) <==> e in TextErrors(p)
  {
    LongSkillsExact(p.skills);
    BadDatesExact(p.availability, parse);
    InProfileErrors(p, parse, e);
  }

  lemma SkillErrorIn(p: Payload, parse: DateParser, e: ProfileError)
    requires e.NoSkills? || e.SkillTooLong?
    ensures e in ProfileErrors(p, parse) <==> e in SkillsErrors(p.skills)
  {
    ListErrorIn(p, parse, e);
    BadDatesExact(p.availability, parse);
  }

  lemma DateErrorIn(p: Payload, parse: DateParser, e: ProfileError)
    requires e.NoAvailability? || e.InvalidDate?
    ensures e in ProfileErrors(p, parse) <==> e in AvailabilityErrors(p.availability, parse)
  {
    ListErrorIn(p, parse, e);
    LongSkillsExact(p.skills);
  }

  /** The skills rule alone: an empty list is reported once, and then each long skill, and only those. */
  lemma SkillsErrorsExact(xs: seq<string>)
    ensures NoSkills in SkillsErrors(xs) <==> xs == []
    ensures forall s :: SkillTooLong(s) in SkillsErrors(xs) <==> s in xs && |s| > 100
  {
    LongSkillsExact(xs);
  }

  /** The skills rules: an empty list is reported once, and then each long skill, and only those. */
  lemma ProfileSkillRules(p: Payload, parse: DateParser)
    ensures NoSkills in ProfileErrors(p, parse) <==> p.skills == []
    ensures forall s :: SkillTooLong(s) in ProfileErrors(p, parse) <==> s in p.skills && |s| > 100
  {
    SkillsErrorsExact(p.skills);
    SkillErrorIn(p, parse, NoSkills);
    forall s ensures SkillTooLong(s) in ProfileErrors(p, parse) <==> s in p.skills && |s| > 100 {
      SkillErrorIn(p, parse, SkillTooLong(s));
    }
  }

  /** The availability rules: an empty list is reported once, and then each entry that is no date. */
  lemma ProfileAvailabilityRules(p: Payload, parse: DateParser)
    ensures var errs := ProfileErrors(p, parse);
      && (NoAvailability in errs <==> p.availability == [])
      && (forall s :: InvalidDate(s) in errs <==> s in p.availability && !DateEntryOk(s, parse))
  {
    BadDatesExact(p.availability, parse);
    DateErrorIn(p, parse, NoAvailability);
    forall s ensures InvalidDate(s) in ProfileErrors(p, parse) <==> s in p.availability && !DateEntryOk(s, parse) {
      DateErrorIn(p, parse, InvalidDate(s));
    }
  }

  /**
   * The text rules: a missing required field, a long one, a bad state or zip, each is
   * reported. An empty state counts as not allowed only; an empty zip as both missing
   * and malformed.
   */
  lemma ProfileTextRules(p: Payload, parse: DateParser)
    ensures var errs := ProfileErrors(p, parse);
      && (Required(FullName) in errs <==> !TruthyText(p.fullName))
      && (TooLong(FullName) in errs <==> TruthyText(p.fullName) && |p.fullName.value| > 50)
      && (Required(State) in errs <==> p.state.None?)
      && (StateNotAllowed in errs <==> p.state.Some? && !IsStateCode(p.state.value))
      && (Required(Zip) in errs <==> !TruthyText(p.zip))
      && (ZipFormat in errs <==> p.zip.Some? && !ZipOk(p.zip.value))
      && (TooLong(Preferences) in errs <==> p.preferences.Some? && |p.preferences.value| > 1000)
  {
    NameRules(p, parse);
    StateRules(p, parse);
    ZipRules(p, parse);
    TextErrorIn(p, parse, TooLong(Preferences));
    InTextErrors(p, TooLong(Preferences));
  }

  lemma NameRules(p: Payload, parse: DateParser)
    ensures Required(FullName) in ProfileErrors(p, parse) <==> !TruthyText(p.fullName)
    ensures TooLong(FullName) in ProfileErrors(p, parse) <==> TruthyText(p.fullName) && |p.fullName.value| > 50
  {
    TextErrorIn(p, parse, Required(FullName));
    TextErrorIn(p, parse, TooLong(FullName));
    InTextErrors(p, Required(FullName));
    InTextErrors(p, TooLong(FullName));
  }

  lemma StateRules(p: Payload, parse: DateParser)
    ensures Required(State) in ProfileErrors(p, parse) <==> p.state.None?
    ensures StateNotAllowed in ProfileErrors(p, parse) <==> p.state.Some? && !IsStateCode(p.state.value)
  {
    TextErrorIn(p, parse, Required(State));
    TextErrorIn(p, parse, StateNotAllowed);
    InTextErrors(p, Required(State));
    InTextErrors(p, StateNotAllowed);
  }

  lemma ZipRules(p: Payload, parse: DateParser)
    ensures Required(Zip) in ProfileErrors(p, parse) <==> !TruthyText(p.zip)
    ensures ZipFormat in ProfileErrors(p, parse) <==> p.zip.Some? && !ZipOk(p.zip.value)
  {
    TextErrorIn(p, parse, Required(Zip));
    TextErrorIn(p, parse, ZipFormat);
    InTextErrors(p, Required(Zip));
    InTextErrors(p, ZipFormat);
  }

  // ---------------------------------------------------------------- the store

  /** The row saved for user `userId` from a payload that has every required text. */
  function ProfileRow(userId: int, p: Payload): (r: Profile)
    requires TruthyText(p.fullName) && TruthyText(p.address1) && TruthyText(p.city)
    requires TruthyText(p.state) && TruthyText(p.zip)
  {
    Profile(userId, p.fullName.value, p.address1.value, p.address2, p.city.value, p.state.value, p.zip.value,
            Items(p.skills), p.preferences, Items(p.availability))
  }

  /** An accepted payload fits the columns of the profile table, so saving it does not fail. */
  lemma ValidPayloadFitsRow(userId: int, p: Payload, parse: DateParser)
    requires SchemaValid(p, parse)
    ensures ProfileRowValid(ProfileRow(userId, p))
    ensures ProfileRow(userId, p).userId == userId
  {
    StateCodesHaveTwoLetters(p.state.value);
    assert |p.zip.value| <= 9;
  }

  /** `GET /profile`: the caller's row, or null when there is none. */
  function GetProfile(profiles: map<int, Profile>, userId: int): (r: Option<Profile>)
    ensures r.None? <==> userId !in profiles
    ensures r.Some? ==> r.value == profiles[userId]
  {
    if userId in profiles then Some(profiles[userId]) else None
  }

  /** In a valid table the row found for a user is that user's own. */
  lemma GetProfileOwn(profiles: map<int, Profile>, userId: int)
    requires ProfilesValid(profiles)
    ensures GetProfile(profiles, userId).Some? ==> GetProfile(profiles, userId).value.userId == userId
  {
  }

  datatype SaveOutcome =
    | Saved(profile: Profile)                 // 200
    | Invalid(errors: seq<ProfileError>)      // 400
    | SaveFailed                              // 500 "Failed to save profile"

  /**
   * `POST /profile`: normalise, validate, then update the caller's row or create it.
   * The row is keyed on the token's `sub` alone; a `userId` in the body is ignored.
   * Creating a row for a `sub` that names no user breaks the foreign key and fails.
   */
  method SaveProfile(db: Database, sub: int, body: ProfileBody, parse: DateParser) returns (out: SaveOutcome)
    requires db.Valid()
    modifies db
    ensures db.Valid()
    ensures var p := Normalize(body);
      if !SchemaValid(p, parse) then out == Invalid(ProfileErrors(p, parse)) && unchanged(db)
      else if sub !in old(db.profiles) && !UserExists(old(db.users), sub) then out == SaveFailed && unchanged(db)
      else
        && out == Saved(ProfileRow(sub, p))
        && db.profiles == old(db.profiles)[sub := ProfileRow(sub, p)]
        && db.users == old(db.users) && db.events == old(db.events)
        && db.history == old(db.history) && db.notifications == old(db.notifications)
        && db.nextUserId == old(db.nextUserId) && db.nextHistoryId == old(db.nextHistoryId)
        && db.nextNotificationId == old(db.nextNotificationId)
    ensures out.Invalid? ==> out.errors != []
    ensures out.Saved? ==> out.profile.userId == sub && GetProfile(db.profiles, sub) == Some(out.profile)
  {
    var p := Normalize(body);
    var errors := ProfileErrors(p, parse);
    ProfileErrorsEmpty(p, parse);
    if errors != [] {
      return Invalid(errors);
    }
    var row := ProfileRow(sub, p);
    ValidPayloadFitsRow(sub, p, parse);
    if GetProfile(db.profiles, sub).Some? {
      db.UpdateProfile(row);
    } else if UserExists(db.users, sub) {
      db.CreateProfile(row);
    } else {
      return SaveFailed;
    }
    out := Saved(row);
  }

  /** Saving touches no other user's row. */
  lemma SaveKeepsOtherProfiles(profiles: map<int, Profile>, sub: int, row: Profile, other: int)
    requires other != sub
    ensures GetProfile(profiles[sub := row], other) == GetProfile(profiles, other)
  {
  }

  // ---------------------------------------------------------------- as written

  /**
   * The key of the row `UserProfile.create({ userId, ...data })` inserts. The validated
   * `data` keeps every key of the body, so a `userId` in the body is spread last and wins
   * over the token's `sub`.
   */
  function CreateKeyAsWritten(sub: int, body: ProfileBody): (key: int)
    ensures body.userId.None? ==> key == sub
    ensures body.userId.Some? ==> key == body.userId.value
  {
    match body.userId
    case None => sub
    case Some(id) => id
  }

  /** A caller with no profile yet who puts another user's id in the body creates that user's profile. */
  lemma CreateAsWrittenIgnoresToken(sub: int, other: int, body: ProfileBody)
    requires body.userId == Some(other) && other != sub
    ensures CreateKeyAsWritten(sub, body) != sub
  {
  }
}
