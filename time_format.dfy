/**
 * The two time normalisers of the assignment handler: the `HH:MM:SS` text written to the
 * history table, and the 12-hour "at h:mm AM" text of the assignment notification.
 */
module TimeFormat {
  import opened Common
  import opened Text
  import opened Models

  /** `p.padStart(2, '0')`. */
  function Pad2(p: string): (r: string)
    ensures |r| >= 2
    ensures |p| >= 2 ==> r == p
    ensures ':' !in p ==> ':' !in r
  {
    PadStart(p, 2, '0')
  }

  /** `(parts[k] || '00')`: the k-th part, or "00" when it is missing or empty. */
  function PartOr00(parts: seq<string>, k: nat): string {
    if k < |parts| && parts[k] != "" then parts[k] else "00"
  }

  /** The text branch of `formatTimeForSQL`: the first three `:`-parts, each padded to two characters. */
  function FormatTimeText(s: string): (r: string)
  {
    var parts := Split(s, ':');
    Pad2(parts[0]) + ":" + Pad2(PartOr00(parts, 1)) + ":" + Pad2(PartOr00(parts, 2))
  }

  /** `formatTimeForSQL`: falsy input gives null, a text is normalised, a Date's clock fields are written out. */
  function FormatTimeForSql(t: TimeValue): (r: Option<string>)
    ensures r.None? <==> (t.NoTime? || t == TimeText(""))
    ensures t.TimeText? && t.text != "" ==> r == Some(FormatTimeText(t.text))
  {
    match t
    case NoTime => None
    case TimeText(s) => if s == "" then None else Some(FormatTimeText(s))
    case TimeOfDay(h, m, sec) => Some(Pad2(NatToString(h)) + ":" + Pad2(NatToString(m)) + ":" + Pad2(NatToString(sec)))
  }

  /** The three parts of three colon-free texts joined by colons. */
  lemma Colons3(a: string, b: string, c: string)
    requires ':' !in a && ':' !in b && ':' !in c
    ensures Split(a + ":" + b + ":" + c, ':') == [a, b, c]
  {
    assert Join([a, b, c], ':') == a + ":" + b + ":" + c by {
      assert Join([b, c], ':') == b + ":" + c;
      assert [a, b, c][1..] == [b, c];
    }
    SplitJoin([a, b, c], ':');
  }

  /** The output is always three colon-free parts of at least two characters. */
  lemma FormatTimeTextShape(s: string)
    ensures exists a, b, c :: (FormatTimeText(s) == a + ":" + b + ":" + c
      && |a| >= 2 && |b| >= 2 && |c| >= 2 && ':' !in a && ':' !in b && ':' !in c
      && a == Pad2(Split(s, ':')[0]))
  {
    var parts := Split(s, ':');
    var a, b, c := Pad2(parts[0]), Pad2(PartOr00(parts, 1)), Pad2(PartOr00(parts, 2));
    assert ':' !in "00";
    assert ':' !in PartOr00(parts, 1) && ':' !in PartOr00(parts, 2);
    assert FormatTimeText(s) == a + ":" + b + ":" + c;
  }

  /** Parts that already have two characters or more are kept as they are. */
  lemma FormatTimeTextKeeps(a: string, b: string, c: string)
    requires ':' !in a && ':' !in b && ':' !in c
    requires |a| >= 2 && |b| >= 2 && |c| >= 2
    ensures FormatTimeText(a + ":" + b + ":" + c) == a + ":" + b + ":" + c
  {
    Colons3(a, b, c);
  }

  /** A well-formed `HH:MM:SS` value is a fixpoint of the normaliser. */
  lemma FormatTimeTextFixpoint(hh: string, mm: string, ss: string)
    requires |hh| == 2 && |mm| == 2 && |ss| == 2 && AllDigits(hh) && AllDigits(mm) && AllDigits(ss)
    ensures FormatTimeForSql(TimeText(hh + ":" + mm + ":" + ss)) == Some(hh + ":" + mm + ":" + ss)
  {
    assert ':' !in hh && ':' !in mm && ':' !in ss by {
      assert !IsDigit(':');
    }
    FormatTimeTextKeeps(hh, mm, ss);
  }

  /** Normalising twice is normalising once. */
  lemma FormatTimeTextIdempotent(s: string)
    ensures FormatTimeText(FormatTimeText(s)) == FormatTimeText(s)
  {
    FormatTimeTextShape(s);
    var a, b, c :| FormatTimeText(s) == a + ":" + b + ":" + c
      && |a| >= 2 && |b| >= 2 && |c| >= 2 && ':' !in a && ':' !in b && ':' !in c;
    FormatTimeTextKeeps(a, b, c);
  }

  /** The two parts of two colon-free texts joined by a colon. */
  lemma Colons2(a: string, b: string)
    requires ':' !in a && ':' !in b
    ensures Split(a + ":" + b, ':') == [a, b]
  {
    assert Join([a, b], ':') == a + ":" + b by {
      assert [a, b][1..] == [b];
    }
    SplitJoin([a, b], ':');
  }

  /** An `HH:MM` value gains `:00` seconds. */
  lemma FormatTimeTextAddsSeconds(hh: string, mm: string)
    requires |hh| == 2 && |mm| == 2 && ':' !in hh && ':' !in mm
    ensures FormatTimeText(hh + ":" + mm) == hh + ":" + mm + ":00"
  {
    Colons2(hh, mm);
    var parts := Split(hh + ":" + mm, ':');
    assert parts == [hh, mm];
    assert Pad2(parts[0]) == hh;
    assert Pad2(PartOr00(parts, 1)) == mm;
    assert Pad2(PartOr00(parts, 2)) == "00";
    assert hh + ":" + mm + ":" + "00" == hh + ":" + mm + ":00";
  }

  // ---------------------------------------------------------------- 12-hour clock

  /** The hour on a 12-hour clock face: 0 reads 12, 13-23 read h - 12, the rest unchanged. */
  function Hour12(h24: int): int {
    if h24 == 0 then 12 else if h24 > 12 then h24 - 12 else h24
  }

  function Meridiem(h24: int): string {
    if h24 >= 12 then "PM" else "AM"
  }

  /** The 24-hour reading of a 12-hour time: the inverse of `Hour12` and `Meridiem`. */
  function Hour24(h12: int, meridiem: string): int {
    if meridiem == "AM" then (if h12 == 12 then 0 else h12)
    else (if h12 == 12 then 12 else h12 + 12)
  }

  /** For hours of the day the conversion lands on a clock face and can be undone. */
  lemma Hour12RoundTrip(h24: int)
    requires 0 <= h24 <= 23
    ensures 1 <= Hour12(h24) <= 12
    ensures Meridiem(h24) == "PM" <==> h24 >= 12
    ensures Hour24(Hour12(h24), Meridiem(h24)) == h24
  {
  }

  /** `parseInt(timeParts[0]) || 0`. */
  function HourOf(parts: seq<string>): int
    requires |parts| >= 1
  {
    match ParseInt(parts[0])
    case None => 0
    case Some(h) => h
  }

  /**
   * The time clause of the assignment message, read from the event's original start time:
   * empty unless the start time is a non-empty text.
   */
  function StartTimeClause(t: TimeValue): (r: string)
    ensures (t.TimeText? && t.text != "") <==> r != ""
  {
    match t
    case TimeText(s) =>
      if s == "" then ""
      else
        var parts := Split(s, ':');
        var h := HourOf(parts);
        " at " + IntToString(Hour12(h)) + ":" + Pad2(PartOr00(parts, 1)) + " " + Meridiem(h)
    case _ => ""
  }

  /** The clause for a well-formed hour of the day shows its 12-hour reading with the minutes. */
  lemma StartTimeClauseOfClock(h24: nat, mm: string)
    requires h24 <= 23 && |mm| == 2 && AllDigits(mm)
    ensures StartTimeClause(TimeText(NatToString(h24) + ":" + mm))
         == " at " + NatToString(Hour12(h24)) + ":" + mm + " " + Meridiem(h24)
  {
    var hh := NatToString(h24);
    assert ':' !in hh && ':' !in mm by {
      assert !IsDigit(':');
    }
    assert Join([hh, mm], ':') == hh + ":" + mm by {
      assert [hh, mm][1..] == [mm];
    }
    SplitJoin([hh, mm], ':');
    ParseIntNatToString(h24);
  }
}
