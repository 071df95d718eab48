/**
 * The server's request-independent logic: who is asking (`getUserIdFromRequest`), the `{id}` path segment,
 * the Monday-to-Sunday window of `GetWeekSchedule` and its grouping of rows by date, and the selection rule of
 * `GetSchedule`.
 *
 * Dates are day numbers counted from 1970-01-01 (a Thursday) and start times are minutes after midnight, so
 * SQL's date and time comparisons become integer comparisons.
 */
module Handlers {
  import opened Common
  import opened Decimal

  // ---------------------------------------------------------------- who is asking

  /** A value `getUserIdFromRequest` accepts: it parses as an `int` and is positive. */
  predicate AcceptedId(s: string) {
    Atoi(s).Some? && Atoi(s).value > 0
  }

  /**
   * `getUserIdFromRequest`: the `X-User-ID` header if it holds a positive integer, else the `user_id` query
   * parameter under the same rule, else 0. A missing header or parameter reads as "".
   */
  function UserIdFromRequest(header: string, query: string): (id: nat)
    ensures id <= Int64Max
    ensures AcceptedId(header) ==> id == Atoi(header).value
    ensures !AcceptedId(header) && AcceptedId(query) ==> id == Atoi(query).value
    ensures id == 0 <==> !AcceptedId(header) && !AcceptedId(query)
  {
    if header != "" && AcceptedId(header) then Atoi(header).value
    else if query != "" && AcceptedId(query) then Atoi(query).value
    else 0
  }

  /** The decimal text of a positive 64-bit id is read back as that id, from the header or the query. */
  lemma UserIdRoundTrip(n: int, other: string)
    requires 0 < n <= Int64Max
    ensures UserIdFromRequest(IntToString(n), other) == n
    ensures UserIdFromRequest("", IntToString(n)) == n
  {
    AtoiOfIntToString(n);
  }

  /**
   * A header that is not a positive numeral (missing, "0", "-3", "abc", or out of range) gives way to the query
   * parameter: the answer is the one a request without the header gets.
   */
  lemma HeaderFallsThrough(header: string, query: string)
    requires Atoi(header).None? || Atoi(header).value <= 0
    ensures UserIdFromRequest(header, query) == UserIdFromRequest("", query)
  {
  }

  // ---------------------------------------------------------------- the {id} path segment

  /** An optional sign followed by at least one decimal digit: the syntax `strconv.Atoi` accepts. */
  predicate IsNumeral(s: string) {
    var body := Unsigned(s);
    body != [] && AllDigits(body)
  }

  /** The text after an optional leading sign. */
  function Unsigned(s: string): (body: string)
    ensures |body| <= |s|
  {
    if s != [] && (s[0] == '+' || s[0] == '-') then s[1..] else s
  }

  const Uint64Max: int := 0xFFFF_FFFF_FFFF_FFFF

  /** The digits `s` starts with, up to its first non-digit. */
  function DigitRun(s: string): (run: string)
    ensures AllDigits(run) && run <= s
    ensures run == s || !IsDigit(s[|run|])
  {
    if s == [] || !IsDigit(s[0]) then [] else [s[0]] + DigitRun(s[1..])
  }

  /**
   * `strconv.ParseUint` reads the digits one by one and stops with a range error, holding 2^64 - 1, as soon as
   * the digits read so far exceed that value, before it looks at anything that follows.
   */
  predicate RunOverflows(s: string) {
    DigitsValue(DigitRun(Unsigned(s))) > Uint64Max
  }

  /**
   * `id, _ := strconv.Atoi(vars["id"])` with the error ignored: the value when it parses; the 64-bit bound on
   * the side of the sign when the error is a range error, that is when the leading digits overflow 2^64 - 1
   * or the whole text is a numeral outside the 64-bit range; and 0 for any other syntax error. (Texts shorter
   * than 19 characters take Go's fast path, which never reports a range error; their digits cannot overflow.)
   */
  function PathId(s: string): (id: int)
    ensures Int64Min <= id <= Int64Max
    ensures Atoi(s).Some? ==> id == Atoi(s).value
    ensures Atoi(s).None? && !IsNumeral(s) && !RunOverflows(s) ==> id == 0
    ensures Atoi(s).None? && (IsNumeral(s) || RunOverflows(s)) ==>
      s != [] && id == (if s[0] == '-' then Int64Min else Int64Max)
  {
    if Atoi(s).Some? then Atoi(s).value
    else if !IsNumeral(s) && !RunOverflows(s) then 0
    else if s[0] == '-' then Int64Min
    else Int64Max
  }

  /** Appending digits never lowers the value of a digit string. */
  lemma {:induction false} DigitsValueGrows(a: string, b: string)
    requires AllDigits(a + b)
    ensures AllDigits(a) && DigitsValue(a) <= DigitsValue(a + b)
  {
    assert forall i :: 0 <= i < |a| ==> (a + b)[i] == a[i];
    if b != [] {
      var shorter := b[..|b| - 1];
      var ab := a + b;
      assert ab[..|ab| - 1] == a + shorter;
      assert AllDigits(a + shorter) by {
        assert forall i :: 0 <= i < |a + shorter| ==> (a + shorter)[i] == ab[i];
      }
      DigitsValueGrows(a, shorter);
      assert DigitsValue(ab) == DigitsValue(a + shorter) * 10 + DigitValue(ab[|ab| - 1]);
      assert DigitsValue(a + shorter) <= DigitsValue(ab);
    } else {
      assert a + b == a;
    }
  }

  /** The digit run of digits followed by more text starts with those digits. */
  lemma {:induction false} DigitRunOfDigits(d: string, t: string)
    requires AllDigits(d)
    ensures DigitRun(d + t) == d + DigitRun(t)
  {
    if d != [] {
      assert (d + t)[1..] == d[1..] + t;
      DigitRunOfDigits(d[1..], t);
      assert d == [d[0]] + d[1..];
    } else {
      assert d + t == t;
    }
  }

  /** A range error in `ParseUint` means `Atoi` fails. */
  lemma {:induction false} AtoiFailsOnOverflow(s: string)
    requires RunOverflows(s)
    ensures Atoi(s).None?
  {
    if IsNumeral(s) {
      assert DigitRun(Unsigned(s)) == Unsigned(s);
    }
  }

  /** The digit run of digits followed by more text is worth at least those digits. */
  lemma {:induction false} DigitRunValue(d: string, t: string)
    requires AllDigits(d)
    ensures DigitsValue(d) <= DigitsValue(DigitRun(d + t))
  {
    DigitRunOfDigits(d, t);
    DigitsValueGrows(d, DigitRun(t));
  }

  /** Leading digits worth more than 2^64 - 1 overflow whatever text follows them. */
  lemma {:induction false} RunOverflowsOfDigits(d: string, t: string)
    requires AllDigits(d) && DigitsValue(d) > Uint64Max
    ensures RunOverflows(d + t)
  {
    DigitRunValue(d, t);
    assert d != [] && IsDigit(d[0]);
    UnsignedOfDigitStart(d, t);
  }

  /** A minus sign in front of unsigned text keeps its digit run. */
  lemma {:induction false} RunOverflowsNegated(s: string)
    requires DigitsValue(DigitRun(s)) > Uint64Max
    ensures RunOverflows("-" + s)
  {
    assert Unsigned("-" + s) == s by {
      assert ("-" + s)[1..] == s;
    }
  }

  /** Text that starts with a digit has no sign to strip. */
  lemma {:induction false} UnsignedOfDigitStart(d: string, t: string)
    requires d != [] && IsDigit(d[0])
    ensures Unsigned(d + t) == d + t
  {
    assert (d + t)[0] == d[0];
  }

  /**
   * Digits worth more than 2^64 - 1 give the 64-bit bound whatever follows them: `Atoi` fails, but with a range
   * error, not a syntax error.
   */
  lemma {:induction false} PathIdOfOverflow(d: string, t: string)
    requires AllDigits(d) && DigitsValue(d) > Uint64Max
    ensures PathId(d + t) == Int64Max
    ensures PathId("-" + d + t) == Int64Min
  {
    PathIdOfPositiveOverflow(d, t);
    PathIdOfNegativeOverflow(d, t);
  }

  /** A range error in `ParseUint` gives the bound on the side of the sign. */
  lemma {:induction false} PathIdOfRunOverflow(s: string)
    requires RunOverflows(s)
    ensures s != [] && PathId(s) == (if s[0] == '-' then Int64Min else Int64Max)
  {
    AtoiFailsOnOverflow(s);
  }

  lemma {:induction false} PathIdOfPositiveOverflow(d: string, t: string)
    requires AllDigits(d) && DigitsValue(d) > Uint64Max
    ensures PathId(d + t) == Int64Max
  {
    RunOverflowsOfDigits(d, t);
    PathIdOfRunOverflow(d + t);
    assert d != [] && (d + t)[0] == d[0];
  }

  lemma {:induction false} PathIdOfNegativeOverflow(d: string, t: string)
    requires AllDigits(d) && DigitsValue(d) > Uint64Max
    ensures PathId("-" + d + t) == Int64Min
  {
    var s := d + t;
    var negated := "-" + s;
    assert "-" + d + t == negated;
    RunOverflowsOfDigits(d, t);
    assert d != [] && IsDigit(d[0]);
    UnsignedOfDigitStart(d, t);
    RunOverflowsNegated(s);
    PathIdOfRunOverflow(negated);
    assert negated[0] == '-';
  }

  function Pow10(n: nat): (p: nat)
    ensures p >= 1
  {
    if n == 0 then 1 else 10 * Pow10(n - 1)
  }

  /** A digit string is worth at least its leading digit in its leading place. */
  lemma {:induction false} DigitsValueAtLeastLead(s: string)
    requires s != [] && AllDigits(s)
    ensures DigitsValue(s) >= DigitValue(s[0]) * Pow10(|s| - 1)
  {
    if |s| > 1 {
      var init := s[..|s| - 1];
      DigitsValueAtLeastLead(init);
      assert init[0] == s[0];
      var c := DigitValue(s[0]);
      assert DigitsValue(s) >= DigitsValue(init) * 10;
      assert DigitsValue(init) * 10 >= c * Pow10(|s| - 2) * 10;
      assert c * Pow10(|s| - 2) * 10 == c * Pow10(|s| - 1);
    } else {
      assert s[..0] == [];
    }
  }

  lemma Pow10Of19()
    ensures Pow10(19) == 10000000000000000000
  {
    assert Pow10(10) == 10000000000;
  }

  /** Twenty nines are worth more than 2^64 - 1. */
  lemma TwentyNinesOverflow(d: string)
    requires d == "99999999999999999999"
    ensures AllDigits(d) && DigitsValue(d) > Uint64Max
  {
    DigitsValueAtLeastLead(d);
    assert |d| - 1 == 19;
    Pow10Of19();
  }

  /** The path segment "99999999999999999999x" reads as the largest 64-bit integer, not as 0. */
  lemma PathIdOfLongJunk()
    ensures PathId("99999999999999999999x") == Int64Max
  {
    var d := "99999999999999999999";
    TwentyNinesOverflow(d);
    assert d + "x" == "99999999999999999999x";
    PathIdOfOverflow(d, "x");
  }

  /** A text whose leading digits fit 2^64 - 1 and that is not a numeral, such as "12x", reads as 0. */
  lemma PathIdOfJunk(s: string)
    requires !IsNumeral(s) && DigitsValue(DigitRun(Unsigned(s))) <= Uint64Max
    ensures PathId(s) == 0
  {
  }

  /** `Atoi` fails on a numeral exactly when the numeral is out of range. */
  lemma AtoiFailsOnlyOutOfRange(s: string)
    requires IsNumeral(s) && Atoi(s).None?
    ensures s[0] != '-' && s[0] != '+' ==> DigitsValue(s) > Int64Max
    ensures s[0] == '+' ==> DigitsValue(s[1..]) > Int64Max
    ensures s[0] == '-' ==> DigitsValue(s[1..]) > -Int64Min
  {
  }

  /** The id the client puts in the path comes back unchanged. */
  lemma PathIdRoundTrip(n: int)
    requires Int64Min <= n <= Int64Max
    ensures PathId(IntToString(n)) == n
  {
    AtoiOfIntToString(n);
  }

  // ---------------------------------------------------------------- the week window

  /** `time.Weekday` of a day: 0 for Sunday, 1 for Monday, ..., 6 for Saturday. */
  function Weekday(day: int): (w: int)
    ensures 0 <= w < 7
  {
    (day + 4) % 7
  }

  /** The weekday with Sunday counted as 7, as `GetWeekSchedule` does. */
  function IsoWeekday(day: int): (w: int)
    ensures 1 <= w <= 7
    ensures Weekday(day) != 0 ==> w == Weekday(day)
  {
    if Weekday(day) == 0 then 7 else Weekday(day)
  }

  /** `now.AddDate(0, 0, -weekday+1)`: the Monday of the current week. */
  function WeekStart(today: int): int {
    today + (1 - IsoWeekday(today))
  }

  /** `now.AddDate(0, 0, 7-weekday)`: the Sunday of the current week. */
  function WeekEnd(today: int): int {
    today + (7 - IsoWeekday(today))
  }

  /** The number of the Monday-to-Sunday week a day falls in. */
  function WeekIndex(day: int): int {
    (day + 3) / 7
  }

  /** The window covers seven days, from a Monday to a Sunday, and today is one of them. */
  lemma WeekWindowShape(today: int)
    ensures WeekEnd(today) - WeekStart(today) == 6
    ensures Weekday(WeekStart(today)) == 1 && Weekday(WeekEnd(today)) == 0
    ensures WeekStart(today) <= today <= WeekEnd(today)
  {
  }

  /** A day is inside the window exactly when it lies in the same Monday-to-Sunday week as today. */
  lemma WeekWindowIsCalendarWeek(today: int, day: int)
    ensures WeekStart(today) <= day <= WeekEnd(today) <==> WeekIndex(day) == WeekIndex(today)
  {
    var s := WeekStart(today);
    assert (s + 3) % 7 == 0 by {
      assert Weekday(s) == 1;
    }
    assert WeekIndex(today) == (s + 3) / 7;
    if s <= day <= s + 6 {
      assert WeekIndex(day) == (s + 3) / 7;
    } else if day < s {
      assert WeekIndex(day) < (s + 3) / 7;
    } else {
      assert WeekIndex(day) > (s + 3) / 7;
    }
  }

  // ---------------------------------------------------------------- grouping the week by date

  /** The columns both schedule queries select and scan. */
  datatype ScheduleRow = ScheduleRow(
    id: int, title: string, eventType: string, subject: string, location: string, eventDate: int,
    startTime: int, duration: int)

  /** One entry of a day's list: the row without its date, which is the list's key. */
  datatype WeekEntry = WeekEntry(
    id: int, title: string, eventType: string, subject: string, location: string, startTime: int, duration: int)

  function EntryOf(r: ScheduleRow): WeekEntry {
    WeekEntry(r.id, r.title, r.eventType, r.subject, r.location, r.startTime, r.duration)
  }

  /** The entries of day `d`, in query order, from the rows that scanned (`None` marks a row that did not). */
  function Bucket(rows: seq<Option<ScheduleRow>>, d: int): (b: seq<WeekEntry>)
    ensures |b| <= |rows|
  {
    if rows == [] then []
    else
      var last := rows[|rows| - 1];
      Bucket(rows[..|rows| - 1], d) + (if last.Some? && last.value.eventDate == d then [EntryOf(last.value)] else [])
  }

  /** Some row that scanned is dated `d`. */
  predicate HasDate(rows: seq<Option<ScheduleRow>>, d: int) {
    exists i :: 0 <= i < |rows| && rows[i].Some? && rows[i].value.eventDate == d
  }

  /** A day has entries exactly when some scanned row is dated that day. */
  lemma {:induction false} BucketNonEmpty(rows: seq<Option<ScheduleRow>>, d: int)
    ensures Bucket(rows, d) != [] <==> HasDate(rows, d)
  {
    if rows != [] {
      var init := rows[..|rows| - 1];
      BucketNonEmpty(init, d);
      HasDateStep(rows, |rows| - 1, d);
    }
  }

  /** Extending the rows by one: a date is present when it was already, or when the new row has it. */
  lemma HasDateStep(rows: seq<Option<ScheduleRow>>, i: nat, d: int)
    requires i < |rows|
    ensures HasDate(rows[..i + 1], d) <==>
      HasDate(rows[..i], d) || (rows[i].Some? && rows[i].value.eventDate == d)
  {
    var next := rows[..i + 1];
    if HasDate(next, d) {
      var j :| 0 <= j < |next| && next[j].Some? && next[j].value.eventDate == d;
      if j < i {
        assert rows[..i][j] == next[j];
      }
    }
    if HasDate(rows[..i], d) {
      var j :| 0 <= j < i && rows[..i][j].Some? && rows[..i][j].value.eventDate == d;
      assert next[j] == rows[..i][j];
    }
    assert next[i] == rows[i];
  }

  /**
   * The row loop of `GetWeekSchedule`: each scanned row is appended to the list of its date, rows that fail
   * to scan are skipped. The days present are exactly the dates of scanned rows, and each day's list holds
   * that day's entries in query order.
   */
  method GroupByDate(rows: seq<Option<ScheduleRow>>) returns (week: map<int, seq<WeekEntry>>)
    ensures forall d :: d in week <==> HasDate(rows, d)
    ensures forall d :: d in week ==> week[d] == Bucket(rows, d)
  {
    week := map[];
    var i := 0;
    while i < |rows|
      invariant 0 <= i <= |rows|
      invariant forall d :: d in week <==> HasDate(rows[..i], d)
      invariant forall d :: d in week ==> week[d] == Bucket(rows[..i], d)
    {
      assert rows[..i + 1][..i] == rows[..i];
      forall d
        ensures HasDate(rows[..i + 1], d) <==>
          HasDate(rows[..i], d) || (rows[i].Some? && rows[i].value.eventDate == d)
      {
        HasDateStep(rows, i, d);
      }
      if rows[i].Some? {
        var r := rows[i].value;
        var list := if r.eventDate in week then week[r.eventDate] else [];
        BucketNonEmpty(rows[..i], r.eventDate);
        week := week[r.eventDate := list + [EntryOf(r)]];
      }
      i := i + 1;
    }
    assert rows[..i] == rows;
  }

  // ---------------------------------------------------------------- the upcoming schedule

  /** One row of the events table. `subject` and `location` are nullable; `None` is SQL's NULL. */
  datatype EventRow = EventRow(
    id: int, userId: int, title: string, description: string, eventType: string, subject: Option<string>,
    location: Option<string>, eventDate: int, startTime: int, duration: int, createdAt: int)

  /** `ORDER BY event_date, start_time`: `a` does not come after `b`. */
  predicate SlotLe(a: EventRow, b: EventRow) {
    a.eventDate < b.eventDate || (a.eventDate == b.eventDate && a.startTime <= b.startTime)
  }

  predicate BySlot(s: seq<EventRow>) {
    forall i, j :: 0 <= i < j < |s| ==> SlotLe(s[i], s[j])
  }

  /** `WHERE user_id = $1 AND event_date >= CURRENT_DATE`, in table order. */
  function Upcoming(table: seq<EventRow>, uid: int, today: int): (r: seq<EventRow>)
    ensures |r| <= |table|
    ensures forall i :: 0 <= i < |r| ==> r[i].userId == uid && r[i].eventDate >= today
  {
    if table == [] then []
    else
      var t := table[0];
      (if t.userId == uid && t.eventDate >= today then [t] else []) + Upcoming(table[1..], uid, today)
  }

  /** The rows of `table` the upcoming filter keeps are exactly the owned rows dated today or later. */
  lemma {:induction false} UpcomingMembership(table: seq<EventRow>, uid: int, today: int, e: EventRow)
    ensures e in Upcoming(table, uid, today) <==> e in table && e.userId == uid && e.eventDate >= today
  {
    if table != [] {
      UpcomingMembership(table[1..], uid, today, e);
      assert table == [table[0]] + table[1..];
    }
  }

  /** Puts `e` before the first row of a slot-ordered list that does not come strictly earlier. */
  function InsertBySlot(e: EventRow, s: seq<EventRow>): (r: seq<EventRow>)
    ensures |r| == |s| + 1
  {
    if s == [] || SlotLe(e, s[0]) then [e] + s
    else [s[0]] + InsertBySlot(e, s[1..])
  }

  /** An insertion sort by slot: a stable stand-in for the database's `ORDER BY`, ties keeping table order. */
  function SortBySlot(s: seq<EventRow>): (r: seq<EventRow>)
    ensures |r| == |s|
  {
    if s == [] then [] else InsertBySlot(s[0], SortBySlot(s[1..]))
  }

  lemma {:induction false} InsertBySlotPermutes(e: EventRow, s: seq<EventRow>)
    ensures multiset(InsertBySlot(e, s)) == multiset(s) + multiset{e}
  {
    if s != [] && !SlotLe(e, s[0]) {
      InsertBySlotPermutes(e, s[1..]);
      assert s == [s[0]] + s[1..];
    }
  }

  lemma {:induction false} InsertBySlotOrders(e: EventRow, s: seq<EventRow>)
    requires BySlot(s)
    ensures BySlot(InsertBySlot(e, s))
  {
    if s != [] && !SlotLe(e, s[0]) {
      var tail := InsertBySlot(e, s[1..]);
      InsertBySlotOrders(e, s[1..]);
      InsertBySlotPermutes(e, s[1..]);
      forall x | x in tail
        ensures SlotLe(s[0], x)
      {
        assert x in multiset(tail);
      }
    }
  }

  /** The sort orders by slot and keeps exactly the rows it was given. */
  lemma {:induction false} SortBySlotFacts(s: seq<EventRow>)
    ensures BySlot(SortBySlot(s)) && multiset(SortBySlot(s)) == multiset(s)
  {
    if s != [] {
      SortBySlotFacts(s[1..]);
      InsertBySlotOrders(s[0], SortBySlot(s[1..]));
      InsertBySlotPermutes(s[0], SortBySlot(s[1..]));
      assert s == [s[0]] + s[1..];
    }
  }

  /** `GetSchedule`'s query: the user's events from today on, in slot order, at most ten. */
  function UpcomingSchedule(table: seq<EventRow>, uid: int, today: int): seq<EventRow> {
    Take(SortBySlot(Upcoming(table, uid, today)), 10)
  }

  /**
   * Ten rows, or every qualifying row when there are fewer, all the user's own and dated today or later, in slot order, each taken from the table,
   * and no qualifying row left out comes before one that was kept.
   */
  lemma UpcomingScheduleFacts(table: seq<EventRow>, uid: int, today: int)
    ensures var r := UpcomingSchedule(table, uid, today);
      && |r| == (if |Upcoming(table, uid, today)| < 10 then |Upcoming(table, uid, today)| else 10)
      && BySlot(r)
      && (forall e :: e in r ==> e in table && e.userId == uid && e.eventDate >= today)
      && multiset(r) <= multiset(Upcoming(table, uid, today))
      && (forall x, y :: x in multiset(Upcoming(table, uid, today)) - multiset(r) && y in r ==> SlotLe(y, x))
  {
    var candidates := Upcoming(table, uid, today);
    var sorted := SortBySlot(candidates);
    SortBySlotFacts(candidates);
    var r := UpcomingSchedule(table, uid, today);
    FirstBySlot(candidates, sorted, |r|);
    forall e | e in r
      ensures e in table && e.userId == uid && e.eventDate >= today
    {
      assert e in multiset(r);
      UpcomingMembership(table, uid, today, e);
    }
  }

  /** The first `k` rows of a slot-ordered arrangement of `rows` come no later than any row after them. */
  lemma FirstBySlot(rows: seq<EventRow>, sorted: seq<EventRow>, k: nat)
    requires BySlot(sorted) && multiset(sorted) == multiset(rows) && k <= |sorted|
    ensures BySlot(sorted[..k]) && multiset(sorted[..k]) <= multiset(rows)
    ensures forall x, y :: x in multiset(rows) - multiset(sorted[..k]) && y in sorted[..k] ==> SlotLe(y, x)
  {
    var top, rest := sorted[..k], sorted[k..];
    assert sorted == top + rest;
    assert multiset(rows) - multiset(top) == multiset(rest);
    RestAfterTop(sorted, k);
  }

  lemma RestAfterTop(sorted: seq<EventRow>, k: nat)
    requires BySlot(sorted) && k <= |sorted|
    ensures forall x, y :: x in multiset(sorted[k..]) && y in sorted[..k] ==> SlotLe(y, x)
  {
    forall x: EventRow, y: EventRow | x in multiset(sorted[k..]) && y in sorted[..k]
      ensures SlotLe(y, x)
    {
      var m :| 0 <= m < |sorted| - k && sorted[k..][m] == x;
      var l :| 0 <= l < k && sorted[..k][l] == y;
      assert sorted[l] == y && sorted[k + m] == x;
    }
  }

  /** The rows the week query selects, in table order: the user's events inside the current week. */
  function WeekRows(table: seq<EventRow>, uid: int, today: int): (r: seq<EventRow>)
    ensures forall i :: 0 <= i < |r| ==>
      r[i].userId == uid && WeekStart(today) <= r[i].eventDate <= WeekEnd(today)
  {
    if table == [] then []
    else
      var t := table[0];
      var keep := t.userId == uid && WeekStart(today) <= t.eventDate <= WeekEnd(today);
      (if keep then [t] else []) + WeekRows(table[1..], uid, today)
  }

  /** The rows of `table` the week filter keeps are exactly the owned rows dated inside the window. */
  lemma {:induction false} WeekRowsMembership(table: seq<EventRow>, uid: int, today: int, e: EventRow)
    ensures e in WeekRows(table, uid, today) <==>
      e in table && e.userId == uid && WeekStart(today) <= e.eventDate <= WeekEnd(today)
  {
    if table != [] {
      WeekRowsMembership(table[1..], uid, today, e);
      assert table == [table[0]] + table[1..];
    }
  }

  /** Neither nullable column the schedule queries select is NULL. */
  predicate Scannable(e: EventRow) {
    e.subject.Some? && e.location.Some?
  }

  /**
   * `rows.Scan` of the eight columns the schedule queries select. The handlers scan `subject` and `location`
   * into plain Go strings, so a NULL in either makes the scan fail (`None`); otherwise the row's columns come
   * back unchanged.
   */
  function Scan(e: EventRow): (r: Option<ScheduleRow>)
    ensures r.Some? <==> Scannable(e)
    ensures r.Some? ==>
      && r.value.id == e.id && r.value.title == e.title && r.value.eventType == e.eventType
      && Some(r.value.subject) == e.subject && Some(r.value.location) == e.location
      && r.value.eventDate == e.eventDate && r.value.startTime == e.startTime && r.value.duration == e.duration
  {
    if e.subject.None? || e.location.None? then None
    else
      Some(ScheduleRow(e.id, e.title, e.eventType, e.subject.value, e.location.value, e.eventDate, e.startTime,
        e.duration))
  }

  /** `GetSchedule`'s result: the rows that scanned, in query order; a row that fails is skipped. */
  function Scanned(rows: seq<EventRow>): (r: seq<ScheduleRow>)
    ensures |r| <= |rows|
  {
    if rows == [] then []
    else
      var last := Scan(rows[|rows| - 1]);
      Scanned(rows[..|rows| - 1]) + (if last.Some? then [last.value] else [])
  }

  /** A row is in the result exactly when some selected row scans to it. */
  lemma {:induction false} ScannedMembership(rows: seq<EventRow>, r: ScheduleRow)
    ensures r in Scanned(rows) <==> exists k :: 0 <= k < |rows| && Scan(rows[k]) == Some(r)
  {
    if rows != [] {
      var init := rows[..|rows| - 1];
      ScannedMembership(init, r);
      if exists k :: 0 <= k < |init| && Scan(init[k]) == Some(r) {
        var k :| 0 <= k < |init| && Scan(init[k]) == Some(r);
        assert rows[k] == init[k];
      }
      if exists k :: 0 <= k < |rows| && Scan(rows[k]) == Some(r) {
        var k :| 0 <= k < |rows| && Scan(rows[k]) == Some(r);
        if k < |init| {
          assert init[k] == rows[k];
        }
      }
    }
  }

  /** When every selected row scans, nothing is skipped: the result has one row per selected row. */
  lemma {:induction false} ScannedAll(rows: seq<EventRow>)
    requires forall k :: 0 <= k < |rows| ==> Scannable(rows[k])
    ensures |Scanned(rows)| == |rows|
    ensures forall k :: 0 <= k < |rows| ==> Some(Scanned(rows)[k]) == Scan(rows[k])
  {
    if rows != [] {
      var init := rows[..|rows| - 1];
      ScannedAll(init);
    }
  }
}
