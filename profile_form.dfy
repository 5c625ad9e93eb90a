/**
 * The volunteer profile form: its defaults, the values loaded from `GET /profile`, the
 * form's own rules, and the body it posts to `POST /profile`.
 */
module ProfileForm {
  import opened Common
  import opened Text
  import opened Models
  import opened Rbac
  import opened Profiles

  /** The form's values; every text input holds a text, possibly empty. */
  datatype FormValues = FormValues(
    fullName: string,
    address1: string,
    address2: string,
    city: string,
    state: string,
    zip: string,
    skills: seq<string>,
    preferences: string,
    availability: seq<string>)

  /** The empty form, with three empty availability rows. */
  const DEFAULT_FORM: FormValues := FormValues("", "", "", "", "", "", [], "", ["", "", ""])

  // ---------------------------------------------------------------- the form's rules

  /** The form's list of skills is the server's vocabulary. */
  predicate Offered(skill: string) {
    skill in SKILLS
  }

  /**
   * The form's schema, but for the skills: the texts required and bounded as on the
   * server, the state one of the same 51 codes, and every availability row filled
   * with a date.
   */
  predicate FieldsValid(v: FormValues, parse: DateParser) {
    && v.fullName != "" && |v.fullName| <= 50
    && v.address1 != "" && |v.address1| <= 100
    && |v.address2| <= 100
    && v.city != "" && |v.city| <= 100
    && v.state != "" && IsStateCode(v.state)
    && v.zip != "" && ZipOk(v.zip)
    && |v.preferences| <= 1000
    && |v.availability| >= 1 && (forall i :: 0 <= i < |v.availability| ==> DateEntryOk(v.availability[i], parse))
  }

  /** The form's schema: the fields as above, and at least one skill, each picked from the offered ones. */
  predicate ClientValid(v: FormValues, parse: DateParser) {
    FieldsValid(v, parse) && |v.skills| >= 1 && (forall i :: 0 <= i < |v.skills| ==> Offered(v.skills[i]))
  }

  /** An offered skill is a short, non-empty text. */
  lemma OfferedSkillsShort(skill: string)
    requires Offered(skill)
    ensures skill != "" && |skill| <= 100
  {
    assert SKILLS == ["Communication", "Teamwork", "Organized", "Adaptability", "Driving", "English", "Spanish"];
  }

  /** A skill list the server takes as it is: not empty, no entry empty or over 100 characters. */
  predicate SkillsSendable(skills: seq<string>) {
    |skills| >= 1 && forall i :: 0 <= i < |skills| ==> skills[i] != "" && |skills[i]| <= 100
  }

  // ---------------------------------------------------------------- submitting

  /** The posted body: no user id, empty optional texts as null, empty availability rows left out. */
  function SubmitBody(v: FormValues): (b: ProfileBody)
    ensures b.userId.None?
    ensures b.address2 == OrNull(Some(v.address2)) && b.preferences == OrNull(Some(v.preferences))
    ensures b.skills == Items(v.skills)
    ensures b.availability.Items? && forall s :: s in b.availability.items <==> s in v.availability && s != ""
  {
    FilterMembers(v.availability, NonEmpty);
    ProfileBody(None, Some(v.fullName), Some(v.address1), OrNull(Some(v.address2)), Some(v.city), Some(v.state),
                Some(v.zip), Items(v.skills), OrNull(Some(v.preferences)), Items(Filter(v.availability, NonEmpty)))
  }

  /** Everything the form lets through passes the server's schema unchanged. */
  lemma ClientValidServerValid(v: FormValues, parse: DateParser)
    requires ClientValid(v, parse)
    ensures SchemaValid(Normalize(SubmitBody(v)), parse)
    ensures ProfileErrors(Normalize(SubmitBody(v)), parse) == []
    ensures Normalize(SubmitBody(v)).skills == v.skills && Normalize(SubmitBody(v)).availability == v.availability
  {
    forall i | 0 <= i < |v.skills| ensures v.skills[i] != "" && |v.skills[i]| <= 100 {
      OfferedSkillsShort(v.skills[i]);
    }
    SubmitKeepsLists(v, parse);
    SubmitMeetsSchema(v, parse);
    ProfileErrorsEmpty(Normalize(SubmitBody(v)), parse);
  }

  /** The body of valid fields and sendable skills passes the server's schema. */
  lemma SubmitMeetsSchema(v: FormValues, parse: DateParser)
    requires FieldsValid(v, parse) && SkillsSendable(v.skills)
    ensures SchemaValid(Normalize(SubmitBody(v)), parse)
  {
    SubmitKeepsLists(v, parse);
    var p := Payload(Some(v.fullName), Some(v.address1), OrNull(Some(v.address2)), Some(v.city), Some(v.state),
                     Some(v.zip), v.skills, OrNull(Some(v.preferences)), v.availability);
    assert Normalize(SubmitBody(v)) == p;
    PayloadMeetsSchema(p, parse);
  }

  /** The schema for a payload whose every condition is given one by one. */
  lemma PayloadMeetsSchema(p: Payload, parse: DateParser)
    requires TruthyText(p.fullName) && |p.fullName.value| <= 50
    requires TruthyText(p.address1) && |p.address1.value| <= 100
    requires p.address2.Some? ==> |p.address2.value| <= 100
    requires TruthyText(p.city) && |p.city.value| <= 100
    requires TruthyText(p.state) && IsStateCode(p.state.value)
    requires TruthyText(p.zip) && ZipOk(p.zip.value)
    requires |p.skills| >= 1 && (forall i :: 0 <= i < |p.skills| ==> |p.skills[i]| <= 100)
    requires p.preferences.Some? ==> |p.preferences.value| <= 1000
    requires |p.availability| >= 1 && (forall i :: 0 <= i < |p.availability| ==> DateEntryOk(p.availability[i], parse))
    ensures SchemaValid(p, parse)
  {
  }

  /** Valid fields have no empty availability row, so neither the form nor the server drops a list entry. */
  lemma SubmitKeepsLists(v: FormValues, parse: DateParser)
    requires FieldsValid(v, parse) && forall i :: 0 <= i < |v.skills| ==> v.skills[i] != ""
    ensures Normalize(SubmitBody(v)).skills == v.skills && Normalize(SubmitBody(v)).availability == v.availability
  {
    FilterAll(v.skills, NonEmpty);
    FilterAll(v.availability, NonEmpty);
    FilterAll(Filter(v.availability, NonEmpty), NonEmpty);
  }

  /** The server is laxer about skills than the form: it stores a skill the form does not offer. */
  lemma ServerAcceptsUnofferedSkill(v: FormValues, parse: DateParser)
    requires ClientValid(v, parse)
    ensures !ClientValid(v.(skills := ["Cooking"]), parse)
    ensures SchemaValid(Normalize(SubmitBody(v.(skills := ["Cooking"]))), parse)
  {
    var w := v.(skills := ["Cooking"]);
    assert !Offered(w.skills[0]);
    assert FieldsValid(w, parse);
    SubmitMeetsSchema(w, parse);
  }

  /** The status line after a save. */
  datatype SaveReply =
    | SaveOk                                            // a 2xx answer
    | SaveRefused(errors: seq<string>, error: Option<string>) // another answer, with its `errors` and `error`
    | SaveThrew                                         // the request or the reading of its answer threw

  datatype FormStatus = FormStatus(message: string, errors: seq<string>)

  function SaveStatus(reply: SaveReply): (s: FormStatus)
    ensures s.message != "" <==> reply.SaveOk?
    ensures reply.SaveRefused? && reply.errors != [] ==> s.errors == reply.errors
    ensures reply.SaveRefused? && reply.errors == [] ==> s.errors == [OrElse(reply.error, "Failed to save profile")]
    ensures !reply.SaveOk? ==> s.errors != []
  {
    match reply
    case SaveOk => FormStatus("Profile saved!", [])
    case SaveRefused(errs, err) =>
      if errs != [] then FormStatus("", errs) else FormStatus("", [OrElse(err, "Failed to save profile")])
    case SaveThrew => FormStatus("", ["Something went wrong, please try again"])
  }

  // ---------------------------------------------------------------- loading

  /**
   * The form's values for a stored profile. A list column read back as an array is kept;
   * one with no length (an empty text, a non-text value) loads as `[]`, or as one empty
   * date entry. A non-empty text, which the page keeps as it is, is outside the form's
   * list-valued fields and loads as empty here.
   */
  function FromProfile(p: Profile): (v: FormValues)
    ensures v.fullName == p.fullName && v.address1 == p.address1 && v.city == p.city
    ensures v.state == p.state && v.zip == p.zip
    ensures v.address2 == OrElse(p.address2, "") && v.preferences == OrElse(p.preferences, "")
    ensures p.skills.Items? ==> v.skills == p.skills.items
    ensures !p.skills.Items? ==> v.skills == []
    ensures p.availability.Items? && p.availability.items != [] ==> v.availability == p.availability.items
    ensures !(p.availability.Items? && p.availability.items != []) ==> v.availability == [""]
  {
    FormValues(p.fullName, p.address1, OrElse(p.address2, ""), p.city, p.state, p.zip,
               if p.skills.Items? then p.skills.items else [],
               OrElse(p.preferences, ""),
               if p.availability.Items? && p.availability.items != [] then p.availability.items else [""])
  }

  /** How `GET /profile` ends, as the form sees it. */
  datatype LoadReply =
    | LoadOk(profile: Option<Profile>)  // a 2xx answer: the profile, or null
    | LoadRefused                       // any other answer
    | LoadThrew                         // the request or the reading of its answer threw

  /** The values and the errors after loading: a profile fills the form, no profile empties it, a failure keeps it. */
  function Load(current: FormValues, reply: LoadReply): (r: (FormValues, seq<string>))
    ensures reply.LoadOk? && reply.profile.Some? ==> r == (FromProfile(reply.profile.value), [])
    ensures (reply.LoadOk? && reply.profile.None?) || reply.LoadRefused? ==> r == (DEFAULT_FORM, [])
    ensures reply.LoadThrew? ==> r == (current, ["Failed to load profile"])
  {
    match reply
    case LoadOk(Some(p)) => (FromProfile(p), [])
    case LoadOk(None) => (DEFAULT_FORM, [])
    case LoadRefused => (DEFAULT_FORM, [])
    case LoadThrew => (current, ["Failed to load profile"])
  }

  /**
   * Loading a saved profile and submitting it untouched sends the server the payload
   * it saved, so the row is stored again as it was.
   */
  lemma LoadSubmitRoundTrip(b: ProfileBody, sub: int, parse: DateParser)
    requires SchemaValid(Normalize(b), parse)
    ensures var q := Normalize(b);
      && Normalize(SubmitBody(FromProfile(ProfileRow(sub, q)))) == q
      && ProfileRow(sub, Normalize(SubmitBody(FromProfile(ProfileRow(sub, q))))) == ProfileRow(sub, q)
  {
    var q := Normalize(b);
    var v := FromProfile(ProfileRow(sub, q));
    NormalizeDropsEmptyEntries(b);
    assert v.skills == q.skills && v.availability == q.availability;
    FilterAll(q.skills, NonEmpty);
    FilterAll(q.availability, NonEmpty);
    FilterAll(Filter(q.availability, NonEmpty), NonEmpty);
    var n := Normalize(SubmitBody(v));
    assert n.address2 == q.address2;
    assert n.preferences == q.preferences;
  }

  // ---------------------------------------------------------------- authentication

  /** The `Authorization` header the form sends: none, only an `x-user-id` header the server never reads. */
  function AuthorizationAsWritten(): Option<string> {
    None
  }

  /** As written, both requests of the form are refused before the route runs, whatever the secret. */
  lemma FormRequestsRefused(verify: Verifier)
    ensures AuthenticateToken(AuthorizationAsWritten(), verify) == Unauthorized(TOKEN_REQUIRED)
    ensures SaveStatus(SaveRefused([], Some(TOKEN_REQUIRED))).errors == [TOKEN_REQUIRED]
    ensures Load(DEFAULT_FORM, LoadRefused).0 == DEFAULT_FORM
  {
  }

  /**
   * With the bearer header `authFetch` builds, the route runs for the user the token
   * names, and loading shows that user's own profile, or the empty form.
   */
  lemma AuthorizedRequestAccepted(token: string, verify: Verifier, c: Claims, profiles: map<int, Profile>)
    requires token != "" && ' ' !in token && verify(token) == Some(c)
    ensures AuthenticateToken(BearerHeader(token), verify) == Continue(c)
    ensures var shown := Load(DEFAULT_FORM, LoadOk(GetProfile(profiles, c.sub))).0;
      shown == (if c.sub in profiles then FromProfile(profiles[c.sub]) else DEFAULT_FORM)
  {
    BearerHeaderAuthenticates(token, verify, c);
  }
}
