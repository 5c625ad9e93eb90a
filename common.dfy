/** Values shared by every part of the volunteer-management model. */
module Common {

  /** The usual optional value; `None` stands for JavaScript's `null` or `undefined`. */
  datatype Option<+T> = None | Some(value: T)

  /** A calendar day (year, month 1-12, day 1-31), as read from a JavaScript `Date`. */
  datatype Date = Date(year: int, month: int, day: int)

  predicate ValidDate(d: Date) {
    1 <= d.month <= 12 && 1 <= d.day <= 31
  }

  /** Strict chronological order of calendar days. */
  predicate Before(a: Date, b: Date) {
    a.year < b.year
    || (a.year == b.year && a.month < b.month)
    || (a.year == b.year && a.month == b.month && a.day < b.day)
  }

  /** The moment a date stands for, as a number that grows with the date (used to sort by date). */
  function DayKey(d: Date): int {
    d.year * 10000 + d.month * 100 + d.day
  }

  lemma DayKeyOrdersDates(a: Date, b: Date)
    requires ValidDate(a) && ValidDate(b)
    ensures Before(a, b) <==> DayKey(a) < DayKey(b)
    ensures a == b <==> DayKey(a) == DayKey(b)
  {
  }

  /**
   * How `new Date(s)` reads a text: the calendar day it denotes, or `None` for an
   * "Invalid Date". Date parsing and time zones belong to the JavaScript runtime and
   * are a parameter of the model.
   */
  type DateParser = string -> Option<Date>

  /**
   * A JSON column or request field whose runtime type is not fixed: a native array of
   * strings, a text (possibly holding encoded JSON), a truthy value of another type (a
   * non-zero number, `true`, an object) with the text a template literal makes of it,
   * or a falsy one (absent, `null`, `false`, `0`).
   */
  datatype ListField = Items(items: seq<string>) | Text(text: string) | Value(shown: string) | Other

  /** JavaScript truthiness of an optional text: absent and `""` are falsy. */
  predicate TruthyText(o: Option<string>) {
    o.Some? && o.value != ""
  }

  /** JavaScript truthiness of an optional number: absent, `0` (and NaN, modelled as absent) are falsy. */
  predicate TruthyInt(o: Option<int>) {
    o.Some? && o.value != 0
  }

  /**
   * A request field as Express hands it over: absent, a text (a path or query parameter,
   * or a JSON string) or a number (a JSON number).
   */
  datatype Field = Absent | Str(s: string) | Num(n: int)

  /** JavaScript truthiness of a request field: absent, `""` and `0` are falsy. */
  predicate TruthyField(f: Field) {
    match f
    case Absent => false
    case Str(s) => s != ""
    case Num(n) => n != 0
  }

  /** `x || fallback` for an optional text. */
  function OrElse(o: Option<string>, fallback: string): (r: string)
    ensures TruthyText(o) ==> r == o.value
    ensures !TruthyText(o) ==> r == fallback
  {
    if TruthyText(o) then o.value else fallback
  }

  /** `x || null` for an optional text: a falsy text becomes `null`. */
  function OrNull(o: Option<string>): (r: Option<string>)
    ensures r.Some? <==> TruthyText(o)
    ensures r.Some? ==> r == o
  {
    if TruthyText(o) then o else None
  }

  /** The number of elements of `s` that satisfy `p`. */
  function Count<T>(s: seq<T>, p: T -> bool): (n: nat)
    ensures n <= |s|
  {
    if s == [] then 0 else (if p(s[0]) then 1 else 0) + Count(s[1..], p)
  }

  /** The elements of `s` that satisfy `p`, in their order (JavaScript's `filter`). */
  function Filter<T>(s: seq<T>, p: T -> bool): (r: seq<T>)
    ensures |r| <= |s|
  {
    if s == [] then []
    else if p(s[0]) then [s[0]] + Filter(s[1..], p)
    else Filter(s[1..], p)
  }

  /** What `Filter` keeps: exactly the elements that pass the test, as many as `Count` says. */
  lemma {:induction false} FilterMembers<T>(s: seq<T>, p: T -> bool)
    ensures |Filter(s, p)| == Count(s, p)
    ensures forall x :: x in Filter(s, p) <==> x in s && p(x)
    ensures multiset(Filter(s, p)) <= multiset(s)
  {
    if s != [] {
      FilterMembers(s[1..], p);
      assert s == [s[0]] + s[1..];
    }
  }

  lemma {:induction false} FilterAppend<T>(a: seq<T>, b: seq<T>, p: T -> bool)
    ensures Filter(a + b, p) == Filter(a, p) + Filter(b, p)
  {
    if a == [] {
      assert a + b == b;
    } else {
      assert (a + b)[1..] == a[1..] + b;
      FilterAppend(a[1..], b, p);
    }
  }

  /** The conjunction of two tests. */
  function Both<T>(p: T -> bool, q: T -> bool): T -> bool {
    x => p(x) && q(x)
  }

  /** The first test without the second. */
  function ButNot<T>(p: T -> bool, q: T -> bool): T -> bool {
    x => p(x) && !q(x)
  }

  /** Filtering twice is filtering once by the conjunction of the two tests. */
  lemma {:induction false} FilterFilter<T>(s: seq<T>, p: T -> bool, q: T -> bool)
    ensures Filter(Filter(s, p), q) == Filter(s, Both(p, q))
  {
    if s != [] {
      FilterFilter(s[1..], p, q);
    }
  }

  /** A filter that keeps every element returns its input unchanged. */
  lemma {:induction false} FilterAll<T>(s: seq<T>, p: T -> bool)
    requires forall i :: 0 <= i < |s| ==> p(s[i])
    ensures Filter(s, p) == s
  {
    if s != [] {
      FilterAll(s[1..], p);
    }
  }

  /** Counting by one test splits into counting by it together with, and without, a second test. */
  lemma {:induction false} CountSplit<T>(s: seq<T>, p: T -> bool, q: T -> bool)
    ensures Count(s, p) == Count(s, Both(p, q)) + Count(s, ButNot(p, q))
  {
    if s != [] {
      CountSplit(s[1..], p, q);
    }
  }

  /** A test that implies another is satisfied by no more elements. */
  lemma {:induction false} CountMonotone<T>(s: seq<T>, p: T -> bool, q: T -> bool)
    requires forall x :: p(x) ==> q(x)
    ensures Count(s, p) <= Count(s, q)
  {
    if s != [] {
      CountMonotone(s[1..], p, q);
    }
  }

  /** Whether the elements of a sequence are pairwise distinct. */
  predicate Distinct<T(==)>(s: seq<T>) {
    forall i, j :: 0 <= i < j < |s| ==> s[i] != s[j]
  }

  /** A duplicate-free sequence drawn from a finite set has at most as many elements as the set. */
  lemma {:induction false} DistinctWithinSet<T>(s: seq<T>, bound: set<T>)
    requires Distinct(s)
    requires forall i :: 0 <= i < |s| ==> s[i] in bound
    ensures |s| <= |bound|
  {
    if s != [] {
      var x := s[0];
      assert forall i :: 0 <= i < |s[1..]| ==> s[1..][i] == s[i + 1];
      assert forall i :: 0 <= i < |s[1..]| ==> s[1..][i] in bound - {x};
      DistinctWithinSet(s[1..], bound - {x});
    }
  }
}
