// Period display shared by the list pages, cards and modals: the `fmt`
// helpers that turn 'YYYY-MM[-DD]' into dotted text, the start ~ end
// string, and the latest-first career order.
module Periods {
  import opened Strings
  import opened Sorting

  // ---------------------------------------------------------------------
  // fmt
  // ---------------------------------------------------------------------

  /** CareerList's fmt: 'YYYY.MM' from the first two '-' pieces, '' for an
      empty date or one without '-'. */
  function MonthDot(d: string): (r: string)
    ensures '-' !in d ==> r == []
  {
    if d == [] then []
    else
      var parts := Split(d, '-');
      SplitNoneWhenAbsent(d);
      if |parts| >= 2 then parts[0] + "." + parts[1] else []
  }

  /** ProjectList's and ProjectDetailModal's fmt: 'YYYY.MM.DD', the day
      '01' when the third piece is missing or empty. */
  function DayDot(d: string): (r: string)
    ensures '-' !in d ==> r == []
  {
    if d == [] then []
    else
      var parts := Split(d, '-');
      SplitNoneWhenAbsent(d);
      if |parts| >= 2 then parts[0] + "." + parts[1] + "." + (if |parts| >= 3 && parts[2] != [] then parts[2] else "01")
      else []
  }

  /** ProjectCard's fmt: 'YY.MM.', '' unless both year and month pieces are
      non-empty. */
  function ShortDot(d: string): (r: string)
    ensures '-' !in d ==> r == []
  {
    if d == [] then []
    else
      var parts := Split(d, '-');
      SplitNoneWhenAbsent(d);
      if |parts| >= 2 && parts[0] != [] && parts[1] != [] then
        (if |parts[0]| >= 2 then parts[0][2..] else []) + "." + parts[1] + "."
      else []
  }

  /** CareerModal's fmt: 'YYYY.MM', '' unless both pieces are non-empty. */
  function ModalDot(d: string): (r: string)
    ensures '-' !in d ==> r == []
  {
    if d == [] then []
    else
      var parts := Split(d, '-');
      SplitNoneWhenAbsent(d);
      if |parts| >= 2 && parts[0] != [] && parts[1] != [] then parts[0] + "." + parts[1] else []
  }

  lemma SplitNoneWhenAbsent(d: string)
    ensures '-' !in d ==> |Split(d, '-')| == 1
  {
    if '-' !in d {
      SplitNone(d, '-');
    }
  }

  /** The four fmt helpers on a 'YYYY-MM' month and a 'YYYY-MM-DD' day. */
  lemma DotsOfMonth(y: string, m: string)
    requires '-' !in y && '-' !in m && |y| == 4 && m != []
    ensures MonthDot(y + "-" + m) == y + "." + m
    ensures DayDot(y + "-" + m) == y + "." + m + ".01"
    ensures ShortDot(y + "-" + m) == y[2..] + "." + m + "."
    ensures ModalDot(y + "-" + m) == y + "." + m
  {
    SplitAt(y, m, '-');
    SplitNone(m, '-');
  }

  lemma DotsOfDay(y: string, m: string, dd: string)
    requires '-' !in y && '-' !in m && '-' !in dd && |y| == 4 && m != [] && dd != []
    ensures MonthDot(y + "-" + m + "-" + dd) == y + "." + m
    ensures DayDot(y + "-" + m + "-" + dd) == y + "." + m + "." + dd
    ensures ModalDot(y + "-" + m + "-" + dd) == y + "." + m
  {
    assert y + "-" + m + "-" + dd == y + ['-'] + (m + ['-'] + dd);
    SplitAt(y, m + ['-'] + dd, '-');
    SplitAt(m, dd, '-');
    SplitNone(dd, '-');
  }

  // ---------------------------------------------------------------------
  // Period strings
  // ---------------------------------------------------------------------

  /** `[s, e].filter(Boolean).join(' ~ ') || fallback`. */
  function JoinPeriod(s: string, e: string, fallback: string): (r: string)
    ensures s != [] && e != [] ==> r == s + " ~ " + e
    ensures s != [] && e == [] ==> r == s
    ensures s == [] && e != [] ==> r == e
    ensures s == [] && e == [] ==> r == fallback
  {
    var parts := (if s != [] then [s] else []) + (if e != [] then [e] else []);
    var j := Join(parts, " ~ ");
    assert s != [] && e != [] ==> j == s + " ~ " + Join([e], " ~ ");
    if j == [] then fallback else j
  }

  /** CareerList's formatPeriod. */
  function CareerListPeriod(start: string, end: string): (r: string)
    ensures r != []
    ensures MonthDot(start) != [] && end == [] ==> r == MonthDot(start) + " ~ (재직 중)"
    ensures MonthDot(start) == [] && end == [] ==> r == "-"
    ensures end != [] && MonthDot(start) != [] && MonthDot(end) != [] ==> r == MonthDot(start) + " ~ " + MonthDot(end)
  {
    var s := MonthDot(start);
    JoinPeriod(s, if end != [] then MonthDot(end) else if s != [] then "(재직 중)" else "", "-")
  }

  /** ProjectList's and ProjectDetailModal's formatPeriod. */
  function ProjectPeriod(start: string, end: string): (r: string)
    ensures r != []
    ensures DayDot(start) != [] && end == [] ==> r == DayDot(start) + " ~ (진행 중)"
    ensures DayDot(start) == [] && end == [] ==> r == "-"
    ensures end != [] && DayDot(start) != [] && DayDot(end) != [] ==> r == DayDot(start) + " ~ " + DayDot(end)
  {
    var s := DayDot(start);
    JoinPeriod(s, if end != [] then DayDot(end) else if s != [] then "(진행 중)" else "", "-")
  }

  /** ProjectCard's period string: '' when there is nothing to show. */
  function CardPeriod(start: string, end: string): (r: string)
    ensures r == [] <==> ShortDot(start) == [] && (end == [] || ShortDot(end) == [])
    ensures ShortDot(start) != [] && end == [] ==> r == ShortDot(start) + " ~ (진행중)"
  {
    var s := ShortDot(start);
    JoinPeriod(s, if end != [] then ShortDot(end) else if s != [] then "(진행중)" else "", "")
  }

  /** CareerModal's period string: nothing without a start, '(현재)' for a
      missing end. */
  function ModalPeriod(start: string, end: string): (r: string)
    ensures ModalDot(start) == [] <==> r == []
    ensures ModalDot(start) != [] && end == [] ==> r == ModalDot(start) + " ~ (현재)"
  {
    var s := ModalDot(start);
    var e := if end != [] then ModalDot(end) else "(현재)";
    if s != [] then s + " ~ " + e else ""
  }

  // ---------------------------------------------------------------------
  // sortCareersByPeriodDesc
  // ---------------------------------------------------------------------

  /** The fields of a career the order looks at ("" for a missing date). */
  datatype CareerItem = CareerItem(id: int, startDate: string, endDate: string)

  /** A missing end date sorts as '9999-12'. */
  function EndKey(c: CareerItem): string
  {
    if c.endDate == [] then "9999-12" else c.endDate
  }

  /** a comes before b: a later end, or the same end and a later start. */
  predicate Before(a: CareerItem, b: CareerItem)
  {
    LexLess(EndKey(b), EndKey(a)) || (EndKey(a) == EndKey(b) && LexLess(b.startDate, a.startDate))
  }

  lemma BeforeIsStrict()
    ensures StrictOrder(Before)
  {
    forall a: CareerItem ensures !Before(a, a) {
      LexLessIrreflexive(EndKey(a));
      LexLessIrreflexive(a.startDate);
    }
    forall a: CareerItem, b: CareerItem, c: CareerItem | Before(a, b) && Before(b, c) ensures Before(a, c) {
      BeforeTransitive(a, b, c);
    }
  }

  lemma BeforeTransitive(a: CareerItem, b: CareerItem, c: CareerItem)
    requires Before(a, b) && Before(b, c)
    ensures Before(a, c)
  {
    if LexLess(EndKey(b), EndKey(a)) && LexLess(EndKey(c), EndKey(b)) {
      LexLessTransitive(EndKey(c), EndKey(b), EndKey(a));
    } else if EndKey(a) == EndKey(b) && EndKey(b) == EndKey(c) {
      LexLessTransitive(c.startDate, b.startDate, a.startDate);
    }
  }

  /** The sorted copy. */
  function SortLatestFirst(list: seq<CareerItem>): (r: seq<CareerItem>)
    ensures multiset(r) == multiset(list)
  {
    SortBy(list, Before)
  }

  /** The copy is in order: no career is placed before one that should come
      earlier. */
  lemma SortLatestFirstSorted(list: seq<CareerItem>)
    ensures SortedBy(SortLatestFirst(list), Before)
  {
    BeforeIsStrict();
    SortBySorted(list, Before);
  }

  /** An ongoing career comes before every career that ended before
      9999-12. */
  lemma OngoingFirst(list: seq<CareerItem>, i: nat, j: nat)
    requires i < j < |list|
    ensures var r := SortLatestFirst(list);
      !(r[j].endDate == [] && r[i].endDate != [] && LexLess(r[i].endDate, "9999-12"))
  {
    SortLatestFirstSorted(list);
  }
}
