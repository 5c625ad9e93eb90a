/**
 * The matching page: choosing an event loads its suggestion list, each row shows a
 * rounded score, a colour band and an assign button, and assigning a volunteer
 * reports the outcome and reloads the list.
 */
module ClientMatching {
  import opened Common
  import opened Text
  import opened Models
  import opened Store
  import opened Matching
  import opened Rbac

  /** An entry of the page's event list, as far as the page reads it. */
  datatype ClientEvent = ClientEvent(id: int, requiredSkills: Option<seq<string>>)

  /** `Math.round` for a non-negative value: halves round up. */
  function Round(x: real): (n: int)
    requires x >= 0.0
    ensures n >= 0
    ensures n as real <= x + 0.5 < n as real + 1.0
  {
    (x + 0.5).Floor
  }

  /**
   * `calculateMatchScore`: 0 without a selected event or for an event that requires no
   * skills; otherwise the matched share of the event's skills, in percent, rounded.
   */
  function ClientScore(selected: Option<ClientEvent>, s: Suggestion): (score: int)
    ensures score >= 0
  {
    if selected.None? then 0
    else
      var ev := if selected.value.requiredSkills.Some? then selected.value.requiredSkills.value else [];
      var matched := Filter(s.skills, InList(ev));
      if |ev| > 0 then Round(Percent(|matched|, |ev|)) else 0
  }

  /** The page shows the server's score, rounded to a whole percent. */
  lemma ClientScoreIsRoundedServerScore(e: ClientEvent, s: Suggestion)
    requires e.requiredSkills.Some?
    ensures ClientScore(Some(e), s) == Round(MatchScore(s.skills, e.requiredSkills.value))
    ensures ClientScore(Some(e), s) > 0 ==> exists k :: k in s.skills && k in e.requiredSkills.value
  {
    var ev := e.requiredSkills.value;
    var r := MatchScore(s.skills, ev);
    if ClientScore(Some(e), s) > 0 {
      assert ev != [];
      assert r > 0.0 by {
        assert Round(r) > 0;
      }
    }
  }

  /** The colour band `score-<n>`, `Math.floor(matchScore / 25)`. */
  function Band(score: int): (b: int)
    requires score >= 0
    ensures b >= 0 && 25 * b <= score < 25 * (b + 1)
  {
    score / 25
  }

  /** For a volunteer whose skills are listed once each, the score is at most 100, so the band is 0 to 4, and 4 only at 100. */
  lemma BandRange(e: ClientEvent, s: Suggestion)
    requires e.requiredSkills.Some? && Distinct(s.skills)
    ensures 0 <= ClientScore(Some(e), s) <= 100
    ensures 0 <= Band(ClientScore(Some(e), s)) <= 4
    ensures Band(ClientScore(Some(e), s)) == 4 <==> ClientScore(Some(e), s) == 100
  {
    ClientScoreIsRoundedServerScore(e, s);
    MatchScoreAtMost100(s.skills, e.requiredSkills.value);
  }

  /** The assign button of a row: disabled, and labelled so, exactly when the volunteer is already assigned. */
  datatype Button = Button(disabled: bool, caption: string)

  function AssignButton(s: Suggestion): (b: Button)
    ensures b.disabled <==> s.assignedToEvent
    ensures b.caption == (if b.disabled then "Already Assigned" else "Assign to Event")
  {
    if s.assignedToEvent then Button(true, "Already Assigned") else Button(false, "Assign to Event")
  }

  /** On the server's list, a row's button is disabled exactly when a history record pairs the volunteer with the event. */
  lemma ButtonFollowsHistory(events: map<int, Event>, eventId: int, ps: seq<Profile>, history: seq<HistoryRecord>,
                             decode: Decoder, parse: DateParser)
    requires eventId in events
    ensures var r := Suggestions(events, eventId, ps, history, decode, parse);
      r.Suggested? && forall s :: s in r.rows ==> (AssignButton(s).disabled <==> PairCount(history, s.userId, eventId) > 0)
  {
    SuggestionsRows(events, eventId, ps, history, decode, parse);
  }

  /** `events.find(e => e.id === parseInt(text))`. */
  function FindEvent(events: seq<ClientEvent>, text: string): (r: Option<ClientEvent>)
    ensures ParseInt(text).None? ==> r.None?
    ensures r.Some? ==> r.value in events && Some(r.value.id) == ParseInt(text)
    ensures r.None? && ParseInt(text).Some? ==> forall e :: e in events ==> e.id != ParseInt(text).value
  {
    match ParseInt(text)
    case None => None
    case Some(id) => First(events, id)
  }

  /** The first event with that id. */
  function First(events: seq<ClientEvent>, id: int): (r: Option<ClientEvent>)
    ensures r.Some? ==> r.value in events && r.value.id == id
    ensures r.None? <==> forall e :: e in events ==> e.id != id
  {
    if events == [] then None
    else if events[0].id == id then Some(events[0])
    else First(events[1..], id)
  }

  /** How the assignment request ends, as the page sees it. */
  datatype AssignReply =
    | Accepted                         // a 2xx answer
    | Refused(error: Option<string>)   // any other answer, with its `error` text if it has one
    | NoAnswer                         // the request threw

  const ASSIGN_DONE: string := "Volunteer assigned successfully!"

  /** The message shown after a refused or failed request. */
  function FailureMessage(reply: AssignReply): (m: string)
    requires !reply.Accepted?
    ensures reply.Refused? && TruthyText(reply.error) ==> m == reply.error.value
    ensures reply.Refused? && !TruthyText(reply.error) ==> m == "Failed to assign volunteer"
    ensures reply.NoAnswer? ==> m == "Server error. Please try again."
  {
    if reply.NoAnswer? then "Server error. Please try again." else OrElse(reply.error, "Failed to assign volunteer")
  }

  class MatchingPage {
    var events: seq<ClientEvent>
    var selected: Option<ClientEvent>
    var matched: seq<Suggestion>
    var message: string

    constructor (loaded: seq<ClientEvent>)
      ensures events == loaded && selected.None? && matched == [] && message == ""
    {
      events := loaded;
      selected := None;
      matched := [];
      message := "";
    }

    /**
     * `handleEventSelect(text)`: the event with that id becomes the selection and the
     * message is cleared; without such an event the list empties, otherwise the list
     * becomes the server's (`reply`, `None` when the fetch failed, which keeps the old list).
     */
    method SelectEvent(text: string, reply: Option<seq<Suggestion>>)
      modifies this
      ensures events == old(events)
      ensures selected == FindEvent(old(events), text)
      ensures message == ""
      ensures matched == (if selected.None? then [] else if reply.Some? then reply.value else old(matched))
    {
      selected := FindEvent(events, text);
      message := "";
      if selected.None? {
        matched := [];
        return;
      }
      if reply.Some? {
        matched := reply.value;
      }
    }

    /**
     * `handleAssignVolunteer` as written: on success the success message is set and then
     * the reload, which begins by clearing the message, runs at once; `reload` is its reply.
     */
    method AssignAsWritten(reply: AssignReply, reload: Option<seq<Suggestion>>)
      modifies this
      requires selected.Some? ==> selected.value in events
      ensures old(selected).None? ==> unchanged(this)
      ensures old(selected).Some? && reply.Accepted? ==>
        && events == old(events) && selected.Some? && selected.value.id == old(selected).value.id
        && message == ""
        && matched == (if reload.Some? then reload.value else old(matched))
      ensures old(selected).Some? && !reply.Accepted? ==>
        && events == old(events) && selected == old(selected) && matched == old(matched)
        && message == FailureMessage(reply)
    {
      if selected.None? {
        return;
      }
      if reply.Accepted? {
        message := ASSIGN_DONE;
        var id := selected.value.id;
        ParseIntIntToString(id);
        SelectEvent(IntToString(id), reload);
      } else {
        message := FailureMessage(reply);
      }
    }

    /**
     * `handleAssignVolunteer` as intended: on success the list reloads and the success
     * message stays on the page.
     */
    method Assign(reply: AssignReply, reload: Option<seq<Suggestion>>)
      modifies this
      requires selected.Some? ==> selected.value in events
      ensures old(selected).None? ==> unchanged(this)
      ensures old(selected).Some? && reply.Accepted? ==>
        && events == old(events) && selected.Some? && selected.value.id == old(selected).value.id
        && message == ASSIGN_DONE
        && matched == (if reload.Some? then reload.value else old(matched))
      ensures old(selected).Some? && !reply.Accepted? ==>
        && events == old(events) && selected == old(selected) && matched == old(matched)
        && message == FailureMessage(reply)
    {
      if selected.None? {
        return;
      }
      if reply.Accepted? {
        var id := selected.value.id;
        ParseIntIntToString(id);
        SelectEvent(IntToString(id), reload);
        message := ASSIGN_DONE;
      } else {
        message := FailureMessage(reply);
      }
    }
  }

  /** As written, a successful assignment never leaves the success message on the page. */
  method SuccessMessageLost(e: ClientEvent, reload: Option<seq<Suggestion>>) returns (page: MatchingPage)
    ensures page.message == "" && page.message != ASSIGN_DONE
  {
    page := new MatchingPage([e]);
    ParseIntIntToString(e.id);
    page.SelectEvent(IntToString(e.id), None);
    page.AssignAsWritten(Accepted, reload);
  }

  /** The page's reply to a request that a middleware stopped: not ok, carrying the middleware's `error`. */
  function StoppedReply(d: Decision): (r: AssignReply)
    requires !d.Continue?
    ensures r.Refused? && r.error == Some(d.error)
  {
    Refused(Some(d.error))
  }

  /**
   * As written, the page's requests carry no `Authorization` header, and both matching
   * routes authenticate first: the suggestion list never loads, and assigning shows the
   * middleware's 401 text.
   */
  method AssignWithoutToken(e: ClientEvent, verify: Verifier) returns (page: MatchingPage)
    ensures AuthenticateToken(None, verify) == Unauthorized(TOKEN_REQUIRED)
    ensures page.matched == [] && page.message == TOKEN_REQUIRED
  {
    var d := AuthenticateToken(None, verify);
    page := new MatchingPage([e]);
    ParseIntIntToString(e.id);
    page.SelectEvent(IntToString(e.id), None);
    page.Assign(StoppedReply(d), None);
  }

  /** With the bearer header `authFetch` builds, an admin's requests pass both middlewares of the matching routes. */
  lemma AdminRequestsAccepted(token: string, verify: Verifier, c: Claims)
    requires token != "" && ' ' !in token && verify(token) == Some(c) && c.role == "admin"
    ensures var d := AuthenticateToken(BearerHeader(token), verify);
      d == Continue(c) && RequireAdmin(Some(d.user)) == Continue(c)
  {
    BearerHeaderAuthenticates(token, verify, c);
  }
}
