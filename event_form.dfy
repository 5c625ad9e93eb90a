/**
 * The event-creation form: eight fields, the skill checkboxes that toggle entries of
 * the skill list, the urgency drop-down, the submit guard, the request it sends to
 * `POST /create-event`, and the reset after the server accepted it.
 */
module EventForm {
  import opened Common
  import opened Text
  import opened Models
  import opened CreateEvent

  // ---------------------------------------------------------------- toggling a skill

  function Not(skill: string): string -> bool {
    s => s != skill
  }

  /** `toggleSkill`: an absent skill is appended, a present one is removed wherever it occurs. */
  function Toggle(skills: seq<string>, skill: string): (r: seq<string>)
    ensures skill !in skills ==> r == skills + [skill]
    ensures skill in skills ==> skill !in r && |r| < |skills|
    ensures forall s :: s != skill ==> (s in r <==> s in skills)
  {
    if skill in skills then
      FilterMembers(skills, Not(skill));
      FilterShorter(skills, Not(skill), skill);
      Filter(skills, Not(skill))
    else skills + [skill]
  }

  /** A filter that drops a present element is strictly shorter. */
  lemma {:induction false} FilterShorter(s: seq<string>, p: string -> bool, x: string)
    requires x in s && !p(x)
    ensures |Filter(s, p)| < |s|
  {
    if s[0] == x {
      assert |Filter(s[1..], p)| <= |s[1..]|;
    } else {
      FilterShorter(s[1..], p, x);
    }
  }

  /** Toggling keeps a list free of repeats. */
  lemma ToggleDistinct(skills: seq<string>, skill: string)
    requires Distinct(skills)
    ensures Distinct(Toggle(skills, skill))
  {
    if skill in skills {
      FilterKeepsDistinct(skills, Not(skill));
    }
  }

  lemma {:induction false} FilterKeepsDistinct(s: seq<string>, p: string -> bool)
    requires Distinct(s)
    ensures Distinct(Filter(s, p))
  {
    if s != [] {
      FilterKeepsDistinct(s[1..], p);
      FilterMembers(s[1..], p);
      assert s[0] !in s[1..] by {
        forall i | 0 <= i < |s[1..]| ensures s[1..][i] != s[0] {
          assert s[1..][i] == s[i + 1];
        }
      }
    }
  }

  /**
   * Toggling twice: an absent skill leaves the list as it was; a present skill of a
   * list without repeats comes back at the end of the list.
   */
  lemma ToggleTwice(skills: seq<string>, skill: string)
    ensures skill !in skills ==> Toggle(Toggle(skills, skill), skill) == skills
    ensures skill in skills && Distinct(skills) ==>
      Toggle(Toggle(skills, skill), skill) == Filter(skills, Not(skill)) + [skill]
  {
    if skill !in skills {
      var once := skills + [skill];
      FilterAppend(skills, [skill], Not(skill));
      FilterAll(skills, Not(skill));
      assert Filter([skill], Not(skill)) == [];
      assert Toggle(once, skill) == Filter(once, Not(skill));
    }
  }

  // ---------------------------------------------------------------- the urgency drop-down

  /** The entry of a level in the list: its first letter in capitals. */
  function LevelCaption(level: string): (r: string)
    ensures |r| == |level|
    ensures level != "" ==> r[0] == UpperChar(level[0]) && r[1..] == level[1..]
  {
    if level == "" then "" else [UpperChar(level[0])] + level[1..]
  }

  /** The drop-down's button shows the chosen level as stored, or the prompt. */
  function UrgencyButtonCaption(urgency: string): (r: string)
    ensures urgency != "" ==> r == urgency
    ensures urgency == "" ==> r == "Select Urgency ▼"
  {
    if urgency != "" then urgency else "Select Urgency ▼"
  }

  /** Lower-casing a caption gives back a lower-case level: the stored level is what the entry shows. */
  lemma CaptionLowerRoundTrip(level: string)
    requires IsLower(level)
    ensures Lower(LevelCaption(level)) == level
  {
    if level != "" {
      var r := Lower(LevelCaption(level));
      assert r[0] == LowerChar(UpperChar(level[0])) == level[0];
      forall i | 1 <= i < |level| ensures r[i] == level[i] {
        assert LevelCaption(level)[i] == level[1..][i - 1] == level[i];
      }
    }
  }

  /** The list offers the four levels the server accepts, each under its own caption. */
  lemma LevelCaptionsIdentifyLevels()
    ensures forall u :: u in URGENCIES ==> Lower(LevelCaption(u)) == u
    ensures forall u, w :: u in URGENCIES && w in URGENCIES && LevelCaption(u) == LevelCaption(w) ==> u == w
  {
    forall u | u in URGENCIES ensures Lower(LevelCaption(u)) == u {
      assert IsLower(u);
      CaptionLowerRoundTrip(u);
    }
  }

  // ---------------------------------------------------------------- the form

  /** The text inputs of the form. */
  datatype TextInput = Name | Description | Location | Day | Start | End

  /** What the server answered to the request. */
  datatype SubmitReply =
    | Ok(message: Option<string>)  // a 2xx answer with its `message`, if any
    | Failed(error: Option<string>) // any other answer with its `error`, if any
    | NoAnswer                      // the request or the reading of its answer threw

  const GUARD_ALERT: string := "Please select at least one skill and an urgency level."

  /** The text of the alert after a sent request. */
  function ReplyAlert(reply: SubmitReply): (a: string)
    ensures reply.Ok? ==> a == OrElse(reply.message, "Event created successfully!")
    ensures reply.Failed? ==> a == "Error: " + OrElse(reply.error, "Failed to create event.")
    ensures reply.NoAnswer? ==> a == "Server error. Please try again later."
  {
    match reply
    case Ok(m) => OrElse(m, "Event created successfully!")
    case Failed(e) => "Error: " + OrElse(e, "Failed to create event.")
    case NoAnswer => "Server error. Please try again later."
  }

  /** The submit guard: a skill and a level are chosen. */
  predicate CanSubmit(skills: seq<string>, urgency: string) {
    |skills| > 0 && urgency != ""
  }

  /** The request body the form sends. */
  function Request(name: string, description: string, location: string, skills: seq<string>,
                   urgency: string, date: string, start: string, end: string): (input: EventInput)
    ensures input.requiredSkills == Items(skills)
    ensures input.eventName == Some(name) && input.urgency == Some(urgency)
    ensures input.eventDate == Some(date) && input.startTime == Some(start) && input.endTime == Some(end)
  {
    EventInput(Some(name), Some(description), Some(location), Items(skills), Some(urgency), Some(date),
               Some(start), Some(end))
  }

  /**
   * A request from the form whose guard passed, with skills and level chosen from the
   * lists and the inputs the browser requires filled in, breaks no rule of the server
   * but, possibly, a date in the past, end not after start, or an input of only blanks.
   */
  lemma GuardedRequestErrors(name: string, description: string, location: string, skills: seq<string>,
                             urgency: string, date: string, start: string, end: string,
                             parse: DateParser, today: Date)
    requires CanSubmit(skills, urgency)
    requires forall i :: 0 <= i < |skills| ==> skills[i] in SKILLS
    requires urgency in URGENCIES
    requires |name| <= 100 && date != "" && start != "" && end != ""
    ensures var errs := CreateEventErrors(Request(name, description, location, skills, urgency, date, start, end), parse, today);
      forall e :: e in errs ==> e in [DateInPast, TimesOutOfOrder, NameRequired, DescriptionRequired, LocationRequired]
  {
    var input := Request(name, description, location, skills, urgency, date, start, end);
    var errs := CreateEventErrors(input, parse, today);
    forall e | e in errs
      ensures e in [DateInPast, TimesOutOfOrder, NameRequired, DescriptionRequired, LocationRequired]
    {
      if e.InvalidSkill? {
        CreateEventSkillRules(input, parse, today);
        assert false;
      }
      NonSkillErrorIn(input, parse, today, e);
    }
  }

  class EventFormState {
    var eventName: string
    var eventDescription: string
    var eventLocation: string
    var requiredSkills: seq<string>
    var urgency: string
    var eventDate: string
    var startTime: string
    var endTime: string

    /** Skills come from the checkboxes, each at most once, and a level from the drop-down. */
    predicate Valid()
      reads this
    {
      && Distinct(requiredSkills)
      && (forall i :: 0 <= i < |requiredSkills| ==> requiredSkills[i] in SKILLS)
      && (urgency == "" || urgency in URGENCIES)
    }

    /** Every input starts empty. */
    predicate Empty()
      reads this
    {
      && eventName == "" && eventDescription == "" && eventLocation == "" && requiredSkills == []
      && urgency == "" && eventDate == "" && startTime == "" && endTime == ""
    }

    constructor ()
      ensures Empty() && Valid()
    {
      eventName, eventDescription, eventLocation := "", "", "";
      requiredSkills, urgency := [], "";
      eventDate, startTime, endTime := "", "", "";
    }

    /** The request the current inputs make. */
    function Current(): EventInput
      reads this
    {
      Request(eventName, eventDescription, eventLocation, requiredSkills, urgency, eventDate, startTime, endTime)
    }

    /** Typing into one text input changes that input only. */
    method Type(input: TextInput, value: string)
      modifies this
      ensures eventName == (if input == Name then value else old(eventName))
      ensures eventDescription == (if input == Description then value else old(eventDescription))
      ensures eventLocation == (if input == Location then value else old(eventLocation))
      ensures eventDate == (if input == Day then value else old(eventDate))
      ensures startTime == (if input == Start then value else old(startTime))
      ensures endTime == (if input == End then value else old(endTime))
      ensures requiredSkills == old(requiredSkills) && urgency == old(urgency)
      ensures old(Valid()) ==> Valid()
    {
      match input
      case Name => eventName := value;
      case Description => eventDescription := value;
      case Location => eventLocation := value;
      case Day => eventDate := value;
      case Start => startTime := value;
      case End => endTime := value;
    }

    /** A checkbox: the skill is toggled in the list; nothing else changes. */
    method ToggleSkill(skill: string)
      modifies this
      ensures requiredSkills == Toggle(old(requiredSkills), skill)
      ensures eventName == old(eventName) && eventDescription == old(eventDescription)
      ensures eventLocation == old(eventLocation) && urgency == old(urgency)
      ensures eventDate == old(eventDate) && startTime == old(startTime) && endTime == old(endTime)
      ensures old(Valid()) && skill in SKILLS ==> Valid()
    {
      var before := requiredSkills;
      if Valid() && skill in SKILLS {
        ToggleDistinct(before, skill);
        requiredSkills := Toggle(before, skill);
        forall i | 0 <= i < |requiredSkills| ensures requiredSkills[i] in SKILLS {
          var x := requiredSkills[i];
          assert x in requiredSkills;
          if x != skill {
            assert x in before;
            var k :| 0 <= k < |before| && before[k] == x;
          }
        }
      } else {
        requiredSkills := Toggle(before, skill);
      }
    }

    /** A level of the drop-down. */
    method ChooseUrgency(level: string)
      modifies this
      ensures urgency == level
      ensures eventName == old(eventName) && eventDescription == old(eventDescription)
      ensures eventLocation == old(eventLocation) && requiredSkills == old(requiredSkills)
      ensures eventDate == old(eventDate) && startTime == old(startTime) && endTime == old(endTime)
      ensures old(Valid()) && level in URGENCIES ==> Valid()
    {
      urgency := level;
    }

    /**
     * `handleSubmit`: without a skill or a level it alerts and sends nothing; otherwise
     * it sends the current inputs and, when the server accepted them, empties every input.
     */
    method Submit(reply: SubmitReply) returns (sent: Option<EventInput>, alert: string)
      modifies this
      ensures !old(CanSubmit(requiredSkills, urgency)) ==> sent.None? && alert == GUARD_ALERT && unchanged(this)
      ensures old(CanSubmit(requiredSkills, urgency)) ==>
        && sent == Some(old(Current()))
        && alert == ReplyAlert(reply)
        && (if reply.Ok? then Empty() else unchanged(this))
      ensures old(Valid()) ==> Valid()
    {
      if !CanSubmit(requiredSkills, urgency) {
        return None, GUARD_ALERT;
      }
      sent := Some(Current());
      alert := ReplyAlert(reply);
      if reply.Ok? {
        eventName, eventDescription, eventLocation := "", "", "";
        requiredSkills, urgency := [], "";
        eventDate, startTime, endTime := "", "", "";
      }
    }
  }
}
