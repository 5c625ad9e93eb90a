/**
 * `POST /create-event`: every rule is checked and every violation is reported, then the
 * request is refused with all of them, or the event is echoed back.
 */
module CreateEvent {
  import opened Common
  import opened Text
  import opened Models

  /** The request body; a field that is absent or not a text is `None`. */
  datatype EventInput = EventInput(
    eventName: Option<string>,
    eventDescription: Option<string>,
    eventLocation: Option<string>,
    requiredSkills: ListField,
    urgency: Option<string>,
    eventDate: Option<string>,
    startTime: Option<string>,
    endTime: Option<string>)

  /** One reported violation; `Message` gives the text the response carries. */
  datatype RuleError =
    | NameRequired
    | NameTooLong
    | DescriptionRequired
    | LocationRequired
    | SkillsRequired
    | InvalidSkill(skill: string)
    | UrgencyInvalid
    | DateRequired
    | DateInPast
    | TimesRequired
    | TimesOutOfOrder

  function Message(e: RuleError): string {
    match e
    case NameRequired => "Event name is required."
    case NameTooLong => "Event name must be under 100 characters."
    case DescriptionRequired => "Event description is required."
    case LocationRequired => "Event location is required."
    case SkillsRequired => "At least one skill must be selected."
    case InvalidSkill(s) => "Invalid skill: " + s
    case UrgencyInvalid => "Invalid urgency level."
    case DateRequired => "Event date is required."
    case DateInPast => "Event date cannot be in the past."
    case TimesRequired => "Start and end times are required."
    case TimesOutOfOrder => "End time must be after start time."
  }

  // ---------------------------------------------------------------- the rules

  /** A text that is absent, empty or only white space (`!x || x.trim().length === 0`). */
  predicate MissingText(o: Option<string>) {
    !TruthyText(o) || Blank(o.value)
  }

  /** One entry of the skill list: a text, or a value of another type with the text a template literal makes of it. */
  datatype SkillEntry = SkillText(text: string) | NotText(shown: string)

  /** `ALLOWED_SKILLS.includes(s)`: only a text can equal one of the seven skills. */
  predicate Allowed(e: SkillEntry) {
    e.SkillText? && e.text in SKILLS
  }

  /** What `Invalid skill: ${s}` shows of an entry. */
  function Shown(e: SkillEntry): string {
    match e
    case SkillText(t) => t
    case NotText(v) => v
  }

  /** The entries of an array of texts. */
  function Entries(xs: seq<string>): (r: seq<SkillEntry>)
    ensures |r| == |xs| && forall i :: 0 <= i < |xs| ==> r[i] == SkillText(xs[i])
  {
    seq(|xs|, i requires 0 <= i < |xs| => SkillText(xs[i]))
  }

  /**
   * The skills to check: `None` when the field counts as missing (falsy, or an empty array);
   * an array is checked entry by entry, and any other truthy value as a one-entry list.
   */
  function SkillsToCheck(f: ListField): (r: Option<seq<SkillEntry>>)
    ensures r.None? <==> f.Other? || f == Items([]) || f == Text("")
    ensures r.Some? ==> |r.value| >= 1
    ensures f.Items? && f.items != [] ==> r == Some(Entries(f.items))
    ensures f.Text? && f.text != "" ==> r == Some([SkillText(f.text)])
    ensures f.Value? ==> r == Some([NotText(f.shown)])
  {
    match f
    case Items(xs) => if xs == [] then None else Some(Entries(xs))
    case Text(t) => if t == "" then None else Some([SkillText(t)])
    case Value(v) => Some([NotText(v)])
    case Other => None
  }

  /** The per-skill errors, in list order, one for each entry outside the vocabulary. */
  function SkillErrors(skills: seq<SkillEntry>): (errs: seq<RuleError>)
    ensures |errs| <= |skills|
  {
    if skills == [] then []
    else (if Allowed(skills[0]) then [] else [InvalidSkill(Shown(skills[0]))]) + SkillErrors(skills[1..])
  }

  lemma {:induction false} SkillErrorsAppend(skills: seq<SkillEntry>, s: SkillEntry)
    ensures SkillErrors(skills + [s]) == SkillErrors(skills) + (if Allowed(s) then [] else [InvalidSkill(Shown(s))])
  {
    if skills != [] {
      assert (skills + [s])[1..] == skills[1..] + [s];
      SkillErrorsAppend(skills[1..], s);
    }
  }

  /** Every entry outside the vocabulary, and only those, is reported; nothing else is. */
  lemma {:induction false} SkillErrorsExact(skills: seq<SkillEntry>)
    ensures forall e :: e in SkillErrors(skills) ==> e.InvalidSkill?
    ensures forall s :: InvalidSkill(s) in SkillErrors(skills) <==> exists e :: e in skills && !Allowed(e) && Shown(e) == s
  {
    if skills != [] {
      SkillErrorsExact(skills[1..]);
      assert skills == [skills[0]] + skills[1..];
    }
  }

  /** For an array of texts: `Invalid skill: s` exactly for the entries outside the seven skills. */
  lemma SkillErrorsOfTexts(xs: seq<string>)
    ensures forall s :: InvalidSkill(s) in SkillErrors(Entries(xs)) <==> s in xs && s !in SKILLS
  {
    var es := Entries(xs);
    SkillErrorsExact(es);
    forall s ensures (exists e :: e in es && !Allowed(e) && Shown(e) == s) <==> s in xs && s !in SKILLS {
      if s in xs && s !in SKILLS {
        var i :| 0 <= i < |xs| && xs[i] == s;
        assert es[i] in es && Shown(es[i]) == s;
      }
      if exists e :: e in es && !Allowed(e) && Shown(e) == s {
        var e :| e in es && !Allowed(e) && Shown(e) == s;
        var i :| 0 <= i < |es| && es[i] == e;
        assert xs[i] == s;
      }
    }
  }

  function NameErrors(name: Option<string>): (errs: seq<RuleError>)
    ensures forall e :: e in errs ==> e == NameRequired || e == NameTooLong
  {
    if MissingText(name) then [NameRequired]
    else if |name.value| > 100 then [NameTooLong]
    else []
  }

  function DescriptionErrors(description: Option<string>): (errs: seq<RuleError>)
    ensures forall e :: e in errs ==> e == DescriptionRequired
  {
    if MissingText(description) then [DescriptionRequired] else []
  }

  function LocationErrors(location: Option<string>): (errs: seq<RuleError>)
    ensures forall e :: e in errs ==> e == LocationRequired
  {
    if MissingText(location) then [LocationRequired] else []
  }

  function SkillsErrors(f: ListField): seq<RuleError> {
    match SkillsToCheck(f)
    case None => [SkillsRequired]
    case Some(skills) => SkillErrors(skills)
  }

  function UrgencyErrors(urgency: Option<string>): (errs: seq<RuleError>)
    ensures forall e :: e in errs ==> e == UrgencyInvalid
  {
    if !TruthyText(urgency) || urgency.value !in URGENCIES then [UrgencyInvalid] else []
  }

  /** An unparseable date compares false with today's midnight, so it is not reported. */
  function DateErrors(date: Option<string>, parse: DateParser, today: Date): (errs: seq<RuleError>)
    ensures forall e :: e in errs ==> e == DateRequired || e == DateInPast
  {
    if !TruthyText(date) then [DateRequired]
    else if parse(date.value).Some? && Before(parse(date.value).value, today) then [DateInPast]
    else []
  }

  /** The times are compared as texts. */
  function TimeErrors(start: Option<string>, end: Option<string>): (errs: seq<RuleError>)
    ensures forall e :: e in errs ==> e == TimesRequired || e == TimesOutOfOrder
  {
    if !TruthyText(start) || !TruthyText(end) then [TimesRequired]
    else if !LexLess(start.value, end.value) then [TimesOutOfOrder]
    else []
  }

  /** The error list of the handler: the rules in the order they are checked. */
  function CreateEventErrors(input: EventInput, parse: DateParser, today: Date): seq<RuleError> {
    NameErrors(input.eventName)
      + DescriptionErrors(input.eventDescription)
      + LocationErrors(input.eventLocation)
      + SkillsErrors(input.requiredSkills)
      + UrgencyErrors(input.urgency)
      + DateErrors(input.eventDate, parse, today)
      + TimeErrors(input.startTime, input.endTime)
  }

  /** An error is in the list exactly when one of the rules produced it. */
  lemma InCreateEventErrors(input: EventInput, parse: DateParser, today: Date, e: RuleError)
    ensures e in CreateEventErrors(input, parse, today) <==>
      || e in NameErrors(input.eventName)
      || e in DescriptionErrors(input.eventDescription)
      || e in LocationErrors(input.eventLocation)
      || e in SkillsErrors(input.requiredSkills)
      || e in UrgencyErrors(input.urgency)
      || e in DateErrors(input.eventDate, parse, today)
      || e in TimeErrors(input.startTime, input.endTime)
  {
  }

  /** An error that names no skill is in the list exactly when a rule other than the per-skill one produced it. */
  lemma NonSkillErrorIn(input: EventInput, parse: DateParser, today: Date, e: RuleError)
    requires !e.InvalidSkill?
    ensures e in CreateEventErrors(input, parse, today) <==>
      || e in NameErrors(input.eventName)
      || e in DescriptionErrors(input.eventDescription)
      || e in LocationErrors(input.eventLocation)
      || (e == SkillsRequired && SkillsToCheck(input.requiredSkills).None?)
      || e in UrgencyErrors(input.urgency)
      || e in DateErrors(input.eventDate, parse, today)
      || e in TimeErrors(input.startTime, input.endTime)
  {
    var sk := SkillsToCheck(input.requiredSkills);
    if sk.Some? {
      SkillErrorsExact(sk.value);
    }
    InCreateEventErrors(input, parse, today, e);
  }

  lemma NameRule(input: EventInput, parse: DateParser, today: Date)
    ensures var errs := CreateEventErrors(input, parse, today);
      && (NameRequired in errs <==> MissingText(input.eventName))
      && (NameTooLong in errs <==> !MissingText(input.eventName) && |input.eventName.value| > 100)
  {
    NonSkillErrorIn(input, parse, today, NameRequired);
    NonSkillErrorIn(input, parse, today, NameTooLong);
  }

  lemma DescriptionRule(input: EventInput, parse: DateParser, today: Date)
    ensures DescriptionRequired in CreateEventErrors(input, parse, today) <==> MissingText(input.eventDescription)
  {
    NonSkillErrorIn(input, parse, today, DescriptionRequired);
  }

  lemma LocationRule(input: EventInput, parse: DateParser, today: Date)
    ensures LocationRequired in CreateEventErrors(input, parse, today) <==> MissingText(input.eventLocation)
  {
    NonSkillErrorIn(input, parse, today, LocationRequired);
  }

  lemma UrgencyRule(input: EventInput, parse: DateParser, today: Date)
    ensures UrgencyInvalid in CreateEventErrors(input, parse, today)
            <==> !TruthyText(input.urgency) || input.urgency.value !in URGENCIES
  {
    NonSkillErrorIn(input, parse, today, UrgencyInvalid);
  }

  /** The text rules: each broken one is reported, and only those. */
  lemma CreateEventTextRules(input: EventInput, parse: DateParser, today: Date)
    ensures var errs := CreateEventErrors(input, parse, today);
      && (NameRequired in errs <==> MissingText(input.eventName))
      && (NameTooLong in errs <==> !MissingText(input.eventName) && |input.eventName.value| > 100)
      && (DescriptionRequired in errs <==> MissingText(input.eventDescription))
      && (LocationRequired in errs <==> MissingText(input.eventLocation))
      && (UrgencyInvalid in errs <==> !TruthyText(input.urgency) || input.urgency.value !in URGENCIES)
  {
    NameRule(input, parse, today);
    DescriptionRule(input, parse, today);
    LocationRule(input, parse, today);
    UrgencyRule(input, parse, today);
  }

  /**
   * The skill rules: a missing list is reported once, otherwise each entry outside the
   * seven skills is; a lone value that is not a text is never one of them.
   */
  lemma CreateEventSkillRules(input: EventInput, parse: DateParser, today: Date)
    ensures var errs := CreateEventErrors(input, parse, today);
      var skills := SkillsToCheck(input.requiredSkills);
      && (SkillsRequired in errs <==> skills.None?)
      && (forall s :: InvalidSkill(s) in errs <==>
            skills.Some? && exists e :: e in skills.value && !Allowed(e) && Shown(e) == s)
      && (input.requiredSkills.Items? ==>
            forall s :: InvalidSkill(s) in errs <==> s in input.requiredSkills.items && s !in SKILLS)
      && (input.requiredSkills.Value? ==> InvalidSkill(input.requiredSkills.shown) in errs)
  {
    var sk := SkillsToCheck(input.requiredSkills);
    if sk.Some? {
      SkillErrorsExact(sk.value);
    }
    if input.requiredSkills.Items? {
      SkillErrorsOfTexts(input.requiredSkills.items);
    }
    NonSkillErrorIn(input, parse, today, SkillsRequired);
    forall s ensures InvalidSkill(s) in CreateEventErrors(input, parse, today)
                     <==> sk.Some? && exists e :: e in sk.value && !Allowed(e) && Shown(e) == s {
      InCreateEventErrors(input, parse, today, InvalidSkill(s));
    }
    if input.requiredSkills.Value? {
      assert NotText(input.requiredSkills.shown) in sk.value;
    }
  }

  lemma DateRule(input: EventInput, parse: DateParser, today: Date)
    ensures var errs := CreateEventErrors(input, parse, today);
      && (DateRequired in errs <==> !TruthyText(input.eventDate))
      && (DateInPast in errs <==>
            (TruthyText(input.eventDate) && parse(input.eventDate.value).Some?
             && Before(parse(input.eventDate.value).value, today)))
  {
    NonSkillErrorIn(input, parse, today, DateRequired);
    NonSkillErrorIn(input, parse, today, DateInPast);
  }

  lemma TimeRule(input: EventInput, parse: DateParser, today: Date)
    ensures var errs := CreateEventErrors(input, parse, today);
      && (TimesRequired in errs <==> !TruthyText(input.startTime) || !TruthyText(input.endTime))
      && (TimesOutOfOrder in errs <==>
            (TruthyText(input.startTime) && TruthyText(input.endTime)
             && !LexLess(input.startTime.value, input.endTime.value)))
  {
    NonSkillErrorIn(input, parse, today, TimesRequired);
    NonSkillErrorIn(input, parse, today, TimesOutOfOrder);
  }

  /** The date and time rules: each broken one is reported, and only those. */
  lemma CreateEventScheduleRules(input: EventInput, parse: DateParser, today: Date)
    ensures var errs := CreateEventErrors(input, parse, today);
      && (DateRequired in errs <==> !TruthyText(input.eventDate))
      && (DateInPast in errs <==>
            (TruthyText(input.eventDate) && parse(input.eventDate.value).Some?
             && Before(parse(input.eventDate.value).value, today)))
      && (TimesRequired in errs <==> !TruthyText(input.startTime) || !TruthyText(input.endTime))
      && (TimesOutOfOrder in errs <==>
            (TruthyText(input.startTime) && TruthyText(input.endTime)
             && !LexLess(input.startTime.value, input.endTime.value)))
  {
    DateRule(input, parse, today);
    TimeRule(input, parse, today);
  }

  /**
   * "End after start" is strict: equal times are reported, and of the two orders of
   * two times at most one passes.
   */
  lemma TimesOrderStrict(input: EventInput, parse: DateParser, today: Date)
    requires TruthyText(input.startTime) && TruthyText(input.endTime)
    ensures input.startTime == input.endTime ==> TimesOutOfOrder in CreateEventErrors(input, parse, today)
    ensures TimesOutOfOrder !in CreateEventErrors(input, parse, today) ==>
      TimesOutOfOrder in CreateEventErrors(input.(startTime := input.endTime, endTime := input.startTime), parse, today)
  {
    var swapped := input.(startTime := input.endTime, endTime := input.startTime);
    TimeRule(input, parse, today);
    TimeRule(swapped, parse, today);
    LexLessIrreflexive(input.startTime.value);
    LexLessAsymmetric(input.startTime.value, input.endTime.value);
  }

  /** A missing name is reported only as missing, never also as too long. */
  lemma MissingNameOnlyRequired(input: EventInput, parse: DateParser, today: Date)
    requires MissingText(input.eventName)
    ensures NameTooLong !in CreateEventErrors(input, parse, today)
  {
    CreateEventTextRules(input, parse, today);
  }

  // ---------------------------------------------------------------- the handler

  datatype CreateEventResponse =
    | Created(event: EventInput)        // 200, the event echoed back
    | Rejected(errors: seq<RuleError>)  // 400

  /** The handler's seven partial lists, joined in rule order, are the error list. */
  lemma JoinRuleErrors(input: EventInput, parse: DateParser, today: Date,
                       n: seq<RuleError>, d: seq<RuleError>, l: seq<RuleError>, s: seq<RuleError>,
                       u: seq<RuleError>, da: seq<RuleError>, t: seq<RuleError>)
    requires n == NameErrors(input.eventName) && d == DescriptionErrors(input.eventDescription)
    requires l == LocationErrors(input.eventLocation) && s == SkillsErrors(input.requiredSkills)
    requires u == UrgencyErrors(input.urgency) && da == DateErrors(input.eventDate, parse, today)
    requires t == TimeErrors(input.startTime, input.endTime)
    ensures n + d + l + s + u + da + t == CreateEventErrors(input, parse, today)
  {
  }

  /** The loop over the skills: one error per entry outside the vocabulary, in list order. */
  method CollectSkillErrors(skills: seq<SkillEntry>) returns (errors: seq<RuleError>)
    ensures errors == SkillErrors(skills)
    ensures forall s :: InvalidSkill(s) in errors <==> exists e :: e in skills && !Allowed(e) && Shown(e) == s
  {
    errors := [];
    var i := 0;
    while i < |skills|
      invariant 0 <= i <= |skills|
      invariant errors == SkillErrors(skills[..i])
    {
      SkillErrorsAppend(skills[..i], skills[i]);
      assert skills[..i + 1] == skills[..i] + [skills[i]];
      if !Allowed(skills[i]) {
        errors := errors + [InvalidSkill(Shown(skills[i]))];
      }
      i := i + 1;
    }
    assert skills[..i] == skills;
    SkillErrorsExact(skills);
  }

  /**
   * The handler: the rules in order, with one pass over the skills; `today` is the
   * current calendar day (the server's midnight).
   */
  method HandleCreateEvent(input: EventInput, parse: DateParser, today: Date) returns (resp: CreateEventResponse)
    ensures resp.Rejected? <==> CreateEventErrors(input, parse, today) != []
    ensures resp.Rejected? ==> resp.errors == CreateEventErrors(input, parse, today)
    ensures resp.Created? ==> resp.event == input
  {
    // each rule pushes at most one error, the skills rule one per unknown skill
    var name := input.eventName;
    var nameErrors: seq<RuleError> := [];
    if !TruthyText(name) || Blank(name.value) {
      nameErrors := [NameRequired];
    } else if |name.value| > 100 {
      nameErrors := [NameTooLong];
    }
    assert nameErrors == NameErrors(name);
    var descriptionErrors: seq<RuleError> := [];
    if !TruthyText(input.eventDescription) || Blank(input.eventDescription.value) {
      descriptionErrors := [DescriptionRequired];
    }
    assert descriptionErrors == DescriptionErrors(input.eventDescription);
    var locationErrors: seq<RuleError> := [];
    if !TruthyText(input.eventLocation) || Blank(input.eventLocation.value) {
      locationErrors := [LocationRequired];
    }
    assert locationErrors == LocationErrors(input.eventLocation);
    var skillsErrors: seq<RuleError>;
    var sk := SkillsToCheck(input.requiredSkills);
    if sk.None? {
      skillsErrors := [SkillsRequired];
    } else {
      skillsErrors := CollectSkillErrors(sk.value);
    }
    assert skillsErrors == SkillsErrors(input.requiredSkills);
    var urgencyErrors: seq<RuleError> := [];
    if !TruthyText(input.urgency) || input.urgency.value !in URGENCIES {
      urgencyErrors := [UrgencyInvalid];
    }
    assert urgencyErrors == UrgencyErrors(input.urgency);
    var dateErrors: seq<RuleError> := [];
    if !TruthyText(input.eventDate) {
      dateErrors := [DateRequired];
    } else {
      var day := parse(input.eventDate.value);
      if day.Some? && Before(day.value, today) {
        dateErrors := [DateInPast];
      }
    }
    assert dateErrors == DateErrors(input.eventDate, parse, today);
    var timeErrors: seq<RuleError> := [];
    if !TruthyText(input.startTime) || !TruthyText(input.endTime) {
      timeErrors := [TimesRequired];
    } else if !LexLess(input.startTime.value, input.endTime.value) {
      timeErrors := [TimesOutOfOrder];
    }
    assert timeErrors == TimeErrors(input.startTime, input.endTime);
    var errors := nameErrors + descriptionErrors + locationErrors + skillsErrors
                  + urgencyErrors + dateErrors + timeErrors;
    JoinRuleErrors(input, parse, today, nameErrors, descriptionErrors, locationErrors, skillsErrors,
                   urgencyErrors, dateErrors, timeErrors);
    if errors != [] {
      return Rejected(errors);
    }
    return Created(input);
  }
}
