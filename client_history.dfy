/**
 * The participation-history page: the status view and the free-text search over the
 * records the server returned, the badge shown for each status, and the header counts.
 */
module ClientHistory {
  import opened Common
  import opened Text
  import opened Models

  function StatusIs(status: string): HistoryRecord -> bool {
    (h: HistoryRecord) => h.status == status
  }

  /** The status view: `"all"` keeps every record, any other view keeps the records of that status. */
  function ByStatus(history: seq<HistoryRecord>, view: string): (r: seq<HistoryRecord>)
    ensures view == "all" ==> r == history
    ensures view != "all" ==> forall h :: h in r <==> h in history && h.status == view
  {
    if view == "all" then history
    else FilterMembers(history, StatusIs(view)); Filter(history, StatusIs(view))
  }

  /** The search: the term occurs, ignoring letter case, in the event's name or location. */
  function Mentions(term: string): HistoryRecord -> bool {
    (h: HistoryRecord) => Contains(Lower(h.eventName), Lower(term)) || Contains(Lower(h.eventLocation), Lower(term))
  }

  /** `getFilteredHistory`: the status view, then the search when a term is typed. */
  function Shown(history: seq<HistoryRecord>, view: string, term: string): seq<HistoryRecord> {
    var byStatus := ByStatus(history, view);
    if term == "" then byStatus else Filter(byStatus, Mentions(term))
  }

  /** The single test that `Shown` applies. */
  function Keeps(view: string, term: string): HistoryRecord -> bool {
    (h: HistoryRecord) => (view == "all" || h.status == view) && (term == "" || Mentions(term)(h))
  }

  /** The two filters in a row are one filter by both tests: the records keep their order. */
  lemma ShownIsOneFilter(history: seq<HistoryRecord>, view: string, term: string)
    ensures Shown(history, view, term) == Filter(history, Keeps(view, term))
    ensures forall h :: h in Shown(history, view, term) <==>
      h in history && (view == "all" || h.status == view) && (term == "" || Mentions(term)(h))
  {
    var keep := Keeps(view, term);
    if view == "all" {
      if term == "" {
        FilterAll(history, keep);
      } else {
        FilterSame(history, Mentions(term), keep);
      }
    } else if term == "" {
      FilterSame(history, StatusIs(view), keep);
    } else {
      FilterFilter(history, StatusIs(view), Mentions(term));
      FilterSame(history, Both(StatusIs(view), Mentions(term)), keep);
    }
    FilterMembers(history, keep);
  }

  /** Two tests that agree on every element filter alike. */
  lemma {:induction false} FilterSame<T>(s: seq<T>, p: T -> bool, q: T -> bool)
    requires forall x :: p(x) == q(x)
    ensures Filter(s, p) == Filter(s, q)
  {
    if s != [] {
      FilterSame(s[1..], p, q);
    }
  }

  /** The search ignores letter case: a term and its lower-case form find the same records. */
  lemma SearchIgnoresCase(history: seq<HistoryRecord>, view: string, term: string)
    requires term != ""
    ensures Shown(history, view, Lower(term)) == Shown(history, view, term)
  {
    LowerIsLower(term);
    assert Lower(term) != "";
    FilterSame(ByStatus(history, view), Mentions(Lower(term)), Mentions(term));
  }

  /** A typed term is found in every record whose name contains it, whatever the case of either. */
  lemma SearchFindsName(h: HistoryRecord, term: string, i: nat)
    requires OccursAt(Lower(h.eventName), Lower(term), i)
    ensures Mentions(term)(h)
  {
  }

  /** The badge: a label and a style class for the four known statuses, else the raw status and no class. */
  datatype Badge = Badge(caption: string, cls: string)

  function StatusBadge(status: string): (b: Badge)
    ensures status in STATUSES <==> b.cls != ""
    ensures status !in STATUSES ==> b == Badge(status, "")
  {
    match status
    case "completed" => Badge("Completed", "status-completed")
    case "upcoming" => Badge("Upcoming", "status-upcoming")
    case "cancelled" => Badge("Cancelled", "status-cancelled")
    case "in-progress" => Badge("In Progress", "status-progress")
    case _ => Badge(status, "")
  }

  /** The header's counts. */
  datatype StatusCounts = StatusCounts(all: nat, completed: nat, upcoming: nat, cancelled: nat)

  function Counts(history: seq<HistoryRecord>): (c: StatusCounts)
    ensures c.all == |history|
    ensures c.completed == |ByStatus(history, "completed")|
    ensures c.upcoming == |ByStatus(history, "upcoming")|
    ensures c.cancelled == |ByStatus(history, "cancelled")|
  {
    FilterMembers(history, StatusIs("completed"));
    FilterMembers(history, StatusIs("upcoming"));
    FilterMembers(history, StatusIs("cancelled"));
    StatusCounts(|history|, Count(history, StatusIs("completed")), Count(history, StatusIs("upcoming")),
                 Count(history, StatusIs("cancelled")))
  }

  /**
   * With every status one of the column's four, the three counted statuses and the
   * uncounted "in-progress" add up to the total.
   */
  lemma CountsPartition(history: seq<HistoryRecord>)
    requires forall i :: 0 <= i < |history| ==> history[i].status in STATUSES
    ensures var c := Counts(history);
      c.completed + c.upcoming + c.cancelled + Count(history, StatusIs("in-progress")) == c.all
  {
    StatusCountsAddUp(history);
  }

  lemma {:induction false} StatusCountsAddUp(history: seq<HistoryRecord>)
    requires forall i :: 0 <= i < |history| ==> history[i].status in STATUSES
    ensures Count(history, StatusIs("completed")) + Count(history, StatusIs("upcoming"))
            + Count(history, StatusIs("cancelled")) + Count(history, StatusIs("in-progress")) == |history|
  {
    if history != [] {
      StatusCountsAddUp(history[1..]);
      var st := history[0].status;
      assert st == "upcoming" || st == "completed" || st == "cancelled" || st == "in-progress";
    }
  }
}
