/**
 * The statistics page: the totals it derives from the user's events and tasks, the per-type event counter
 * (a JavaScript object filled in insertion order, modelled as a sequence of key/count pairs), the completion
 * rate and the per-type percentages rounded like `Math.round`.
 */
module Statistics {
  import opened Common
  import opened Records
  import Tasks

  // ---------------------------------------------------------------- study hours

  /** The sum of every event's duration, a missing one counting as 0 (tenths of an hour). */
  function StudyHours(events: seq<Event>): int {
    if events == [] then 0 else StudyHours(events[..|events| - 1]) + events[|events| - 1].duration.GetOr(0)
  }

  /** Study hours add up over concatenation, so the empty list gives 0 and one event gives its own duration. */
  lemma {:induction false} StudyHoursAppend(a: seq<Event>, b: seq<Event>)
    ensures StudyHours(a + b) == StudyHours(a) + StudyHours(b)
    decreases |b|
  {
    if b == [] {
      assert a + b == a;
    } else {
      assert (a + b)[..|a + b| - 1] == a + b[..|b| - 1];
      StudyHoursAppend(a, b[..|b| - 1]);
    }
  }

  lemma StudyHoursSingle(e: Event)
    ensures StudyHours([]) == 0
    ensures StudyHours([e]) == e.duration.GetOr(0)
  {
    assert [e][..0] == [];
  }

  /** With no negative duration, the sum is never negative. */
  lemma {:induction false} StudyHoursNonNegative(events: seq<Event>)
    requires forall i :: 0 <= i < |events| ==> events[i].duration.GetOr(0) >= 0
    ensures StudyHours(events) >= 0
  {
    if events != [] {
      StudyHoursNonNegative(events[..|events| - 1]);
    }
  }

  // ---------------------------------------------------------------- the per-type counter

  /** One key of the `eventTypes` object and the number stored under it. */
  datatype TypeCount = TypeCount(eventType: string, count: nat)

  function Keys(t: seq<TypeCount>): (ks: seq<string>)
    ensures |ks| == |t|
    ensures forall i :: 0 <= i < |t| ==> ks[i] == t[i].eventType
  {
    if t == [] then [] else [t[0].eventType] + Keys(t[1..])
  }

  /** `eventTypes[k] || 0` */
  function Lookup(t: seq<TypeCount>, k: string): nat {
    if t == [] then 0 else if t[0].eventType == k then t[0].count else Lookup(t[1..], k)
  }

  /** The sum of all the counts. */
  function Total(t: seq<TypeCount>): nat {
    if t == [] then 0 else t[0].count + Total(t[1..])
  }

  predicate Distinct(ks: seq<string>) {
    forall i, j :: 0 <= i < j < |ks| ==> ks[i] != ks[j]
  }

  /** `eventTypes[ty] = (eventTypes[ty] || 0) + 1`: an existing key is incremented, a new one is appended. */
  function Bump(t: seq<TypeCount>, ty: string): (r: seq<TypeCount>)
    ensures |r| == |t| || |r| == |t| + 1
  {
    if t == [] then [TypeCount(ty, 1)]
    else if t[0].eventType == ty then [TypeCount(ty, t[0].count + 1)] + t[1..]
    else [t[0]] + Bump(t[1..], ty)
  }

  /** The counter after the `forEach` over `events`. */
  function Tally(events: seq<Event>): seq<TypeCount> {
    if events == [] then [] else Bump(Tally(events[..|events| - 1]), events[|events| - 1].eventType)
  }

  /** How many events have type `ty`. */
  function Occurrences(events: seq<Event>, ty: string): (n: nat)
    ensures n <= |events|
  {
    if events == [] then 0
    else Occurrences(events[..|events| - 1], ty) + (if events[|events| - 1].eventType == ty then 1 else 0)
  }

  /** The distinct event types in the order they first occur. */
  function TypesInOrder(events: seq<Event>): seq<string> {
    if events == [] then []
    else
      var ks := TypesInOrder(events[..|events| - 1]);
      var ty := events[|events| - 1].eventType;
      if ty in ks then ks else ks + [ty]
  }

  lemma {:induction false} BumpKeys(t: seq<TypeCount>, ty: string)
    ensures Keys(Bump(t, ty)) == if ty in Keys(t) then Keys(t) else Keys(t) + [ty]
  {
    if t != [] {
      BumpKeys(t[1..], ty);
      assert Keys(t) == [t[0].eventType] + Keys(t[1..]);
      if t[0].eventType != ty {
        assert Keys(Bump(t, ty)) == [t[0].eventType] + Keys(Bump(t[1..], ty));
      }
    }
  }

  lemma {:induction false} BumpLookup(t: seq<TypeCount>, ty: string, k: string)
    ensures Lookup(Bump(t, ty), k) == Lookup(t, k) + (if k == ty then 1 else 0)
  {
    if t != [] && t[0].eventType != ty {
      BumpLookup(t[1..], ty, k);
      assert Bump(t, ty)[1..] == Bump(t[1..], ty);
    }
  }

  lemma {:induction false} BumpTotal(t: seq<TypeCount>, ty: string)
    ensures Total(Bump(t, ty)) == Total(t) + 1
  {
    if t != [] && t[0].eventType != ty {
      BumpTotal(t[1..], ty);
      assert Bump(t, ty)[1..] == Bump(t[1..], ty);
    } else if t != [] {
      assert Bump(t, ty)[1..] == t[1..];
    }
  }

  lemma {:induction false} BumpPositive(t: seq<TypeCount>, ty: string)
    requires forall i :: 0 <= i < |t| ==> t[i].count >= 1
    ensures forall i :: 0 <= i < |Bump(t, ty)| ==> Bump(t, ty)[i].count >= 1
  {
    if t != [] && t[0].eventType != ty {
      BumpPositive(t[1..], ty);
      assert Bump(t, ty) == [t[0]] + Bump(t[1..], ty);
    }
  }

  /** The counter's keys are the event types in order of first occurrence, each exactly once. */
  lemma {:induction false} TallyKeys(events: seq<Event>)
    ensures Keys(Tally(events)) == TypesInOrder(events)
    ensures Distinct(Keys(Tally(events)))
  {
    if events != [] {
      var init := events[..|events| - 1];
      TallyKeys(init);
      BumpKeys(Tally(init), events[|events| - 1].eventType);
    }
  }

  /** Each key holds the number of events of that type; a type that never occurs reads as 0. */
  lemma {:induction false} TallyCounts(events: seq<Event>, k: string)
    ensures Lookup(Tally(events), k) == Occurrences(events, k)
  {
    if events != [] {
      var init := events[..|events| - 1];
      TallyCounts(init, k);
      BumpLookup(Tally(init), events[|events| - 1].eventType, k);
    }
  }

  /** The counts sum to the number of events, and no key holds 0. */
  lemma {:induction false} TallyTotal(events: seq<Event>)
    ensures Total(Tally(events)) == |events|
    ensures forall i :: 0 <= i < |Tally(events)| ==> Tally(events)[i].count >= 1
  {
    if events != [] {
      var init := events[..|events| - 1];
      TallyTotal(init);
      BumpTotal(Tally(init), events[|events| - 1].eventType);
      BumpPositive(Tally(init), events[|events| - 1].eventType);
    }
  }

  /** A type has a key exactly when some event has that type. */
  lemma {:induction false} TypesInOrderMembership(events: seq<Event>, k: string)
    ensures k in TypesInOrder(events) <==> exists i :: 0 <= i < |events| && events[i].eventType == k
  {
    if events != [] {
      var init := events[..|events| - 1];
      TypesInOrderMembership(init, k);
      if exists i :: 0 <= i < |init| && init[i].eventType == k {
        var i :| 0 <= i < |init| && init[i].eventType == k;
        assert events[i].eventType == k;
      }
      if exists i :: 0 <= i < |events| && events[i].eventType == k {
        var i :| 0 <= i < |events| && events[i].eventType == k;
        if i < |init| {
          assert init[i].eventType == k;
        }
      }
    }
  }

  lemma {:induction false} CountAtMostTotal(t: seq<TypeCount>)
    ensures forall i :: 0 <= i < |t| ==> t[i].count <= Total(t)
  {
    if t != [] {
      CountAtMostTotal(t[1..]);
      forall i | 0 < i < |t|
        ensures t[i].count <= Total(t)
      {
        assert t[i] == t[1..][i - 1];
      }
    }
  }

  // ---------------------------------------------------------------- rounding

  /** `Math.round(count / total * 100)` computed exactly: round half up of 100·count/total. */
  function RoundPercent(count: int, total: int): (r: int)
    requires total > 0
    ensures 2 * total * r - total <= 200 * count < 2 * total * r + total
  {
    var r := (200 * count + total) / (2 * total);
    var m := (200 * count + total) % (2 * total);
    assert 200 * count + total == 2 * total * r + m && 0 <= m < 2 * total;
    r
  }

  /** A share of the whole is a percentage between 0 and 100. */
  lemma PercentBounds(count: int, total: int)
    requires total > 0 && 0 <= count <= total
    ensures 0 <= RoundPercent(count, total) <= 100
  {
    var r, t := RoundPercent(count, total), 2 * total;
    assert r * t < 101 * t;
    CancelFactor(r, 101, t);
    assert -1 * t < r * t;
    CancelFactor(-1, r, t);
  }

  /** A positive factor can be cancelled from a strict inequality. */
  lemma CancelFactor(x: int, y: int, t: int)
    requires t > 0 && x * t < y * t
    ensures x < y
  {
  }

  /** `calculateCompletionRate`: 0 with no tasks, otherwise the rounded percentage of completed tasks. */
  function CompletionRate(completed: nat, total: nat): (r: int)
    ensures total == 0 ==> r == 0
    ensures total > 0 ==> 2 * total * r - total <= 200 * completed < 2 * total * r + total
  {
    if total == 0 then 0 else RoundPercent(completed, total)
  }

  /** The completion rate of a real task list is a percentage; two of three gives 67, half gives 50. */
  lemma CompletionRateFacts(tasks: seq<Task>)
    ensures 0 <= CompletionRate(|Tasks.Completed(tasks)|, |tasks|) <= 100
    ensures CompletionRate(2, 3) == 67 && CompletionRate(1, 2) == 50 && CompletionRate(0, 0) == 0
  {
    if |tasks| > 0 {
      PercentBounds(|Tasks.Completed(tasks)|, |tasks|);
    }
  }

  // ---------------------------------------------------------------- the per-type table

  /** One row of `getEventTypeStats`. */
  datatype TypeStat = TypeStat(eventType: string, count: int, percentage: int)

  /** What the table shows when no type has been counted. */
  const DefaultTypeStats: seq<TypeStat> := [
    TypeStat("lecture", 0, 0), TypeStat("practice", 0, 0), TypeStat("exam", 0, 0), TypeStat("meeting", 0, 0)]

  /**
   * `getEventTypeStats`: the four zero rows when the counter is absent or empty, otherwise one row per key in
   * key order with its count and its rounded share of `total` (0 when `total` is not positive).
   */
  function EventTypeStats(types: Option<seq<TypeCount>>, total: int): (r: seq<TypeStat>)
    ensures types.None? || types.value == [] ==> r == DefaultTypeStats
    ensures types.Some? && types.value != [] ==> |r| == |types.value|
    ensures types.Some? && types.value != [] ==> forall i :: 0 <= i < |r| ==>
      && r[i].eventType == types.value[i].eventType && r[i].count == types.value[i].count
      && r[i].percentage == (if total > 0 then RoundPercent(types.value[i].count, total) else 0)
  {
    if types.None? || types.value == [] then DefaultTypeStats
    else
      var t := types.value;
      seq(|t|, i requires 0 <= i < |t| =>
        TypeStat(t[i].eventType, t[i].count, if total > 0 then RoundPercent(t[i].count, total) else 0))
  }

  /**
   * For the counter of a fetched event list: one row per type in order of first occurrence, with the number of
   * events of that type and that number's rounded share of all events, a percentage between 0 and 100.
   */
  lemma EventTypeStatsOfEvents(events: seq<Event>)
    requires events != []
    ensures var r := EventTypeStats(Some(Tally(events)), |events|);
      && |r| == |TypesInOrder(events)|
      && (forall i :: 0 <= i < |r| ==> r[i].eventType == TypesInOrder(events)[i])
      && (forall i :: 0 <= i < |r| ==> r[i].count == Occurrences(events, r[i].eventType))
      && (forall i :: 0 <= i < |r| ==> r[i].percentage == RoundPercent(r[i].count, |events|))
      && (forall i :: 0 <= i < |r| ==> 0 <= r[i].percentage <= 100)
  {
    var t := Tally(events);
    TallyKeys(events);
    TallyTotal(events);
    CountAtMostTotal(t);
    var r := EventTypeStats(Some(t), |events|);
    forall i | 0 <= i < |r|
      ensures r[i].count == Occurrences(events, r[i].eventType)
      ensures 0 <= r[i].percentage <= 100
    {
      TallyCounts(events, t[i].eventType);
      LookupDistinct(t, i);
      PercentBounds(t[i].count, |events|);
    }
  }

  /** With distinct keys, looking up a key finds the count stored beside it. */
  lemma {:induction false} LookupDistinct(t: seq<TypeCount>, i: nat)
    requires i < |t| && Distinct(Keys(t))
    ensures Lookup(t, t[i].eventType) == t[i].count
  {
    if i > 0 {
      assert Keys(t)[0] != Keys(t)[i];
      assert Keys(t[1..]) == Keys(t)[1..];
      LookupDistinct(t[1..], i - 1);
    }
  }

  /** With no events the counter is the empty object, so the table falls back to the four zero rows. */
  lemma EventTypeStatsNoEvents()
    ensures EventTypeStats(Some(Tally([])), 0) == DefaultTypeStats
  {
  }

  /** The sum of the percentage column. */
  function PercentSum(r: seq<TypeStat>): int {
    if r == [] then 0 else r[0].percentage + PercentSum(r[1..])
  }

  /** The sum of the rounded shares of `total` over a counter, row by row. */
  function RoundedShares(t: seq<TypeCount>, total: int): int
    requires total > 0
  {
    if t == [] then 0 else RoundPercent(t[0].count, total) + RoundedShares(t[1..], total)
  }

  /**
   * Each row is off by at most half a point, so the rounded shares of a counter stay within half a point per row
   * of the exact 100·Total(t)/total (scaled by 2·total to stay in the integers).
   */
  lemma {:induction false} RoundedSharesBounds(t: seq<TypeCount>, total: int)
    requires total > 0
    ensures 2 * total * RoundedShares(t, total) - |t| * total <= 200 * Total(t)
    ensures 200 * Total(t) <= 2 * total * RoundedShares(t, total) + |t| * total
  {
    if t != [] {
      RoundedSharesBounds(t[1..], total);
      var p := RoundPercent(t[0].count, total);
      ErrorsAdd(total, p, t[0].count, RoundedShares(t[1..], total), Total(t[1..]), |t[1..]|);
    }
  }

  /** One more row adds its own rounding error, at most half a point, to the bound on the rest. */
  lemma ErrorsAdd(n: int, p: int, c: int, s: int, c': int, k: int)
    requires 2 * n * p - n <= 200 * c <= 2 * n * p + n
    requires 2 * n * s - k * n <= 200 * c' <= 2 * n * s + k * n
    ensures 2 * n * (p + s) - (k + 1) * n <= 200 * (c + c') <= 2 * n * (p + s) + (k + 1) * n
  {
    assert 2 * n * (p + s) == 2 * n * p + 2 * n * s;
    assert (k + 1) * n == k * n + n;
  }

  /** A table whose rows carry the rounded shares of a counter sums to those shares. */
  lemma {:induction false} PercentSumOfShares(r: seq<TypeStat>, t: seq<TypeCount>, total: int)
    requires total > 0 && |r| == |t|
    requires forall i :: 0 <= i < |r| ==> r[i].percentage == RoundPercent(t[i].count, total)
    ensures PercentSum(r) == RoundedShares(t, total)
  {
    if r != [] {
      PercentSumOfShares(r[1..], t[1..], total);
    }
  }

  /** Dividing the scaled bounds by the positive number of events. */
  lemma CancelEvents(s: int, k: int, n: int)
    requires n > 0
    requires 2 * n * s - k * n <= 200 * n <= 2 * n * s + k * n
    ensures 200 - k <= 2 * s <= 200 + k
  {
    assert (2 * s - k) * n == 2 * n * s - k * n;
    CancelFactorLe(2 * s - k, 200, n);
    assert (2 * s + k) * n == 2 * n * s + k * n;
    CancelFactorLe(200, 2 * s + k, n);
  }

  /** A positive factor can be cancelled from a non-strict inequality. */
  lemma CancelFactorLe(x: int, y: int, t: int)
    requires t > 0 && x * t <= y * t
    ensures x <= y
  {
  }

  /**
   * The percentage column of a fetched event list adds up to 100 give or take half a point per row: the rounding
   * errors of the rows never add up to more than that.
   */
  lemma PercentagesSumNear100(events: seq<Event>)
    requires events != []
    ensures var r := EventTypeStats(Some(Tally(events)), |events|);
      200 - |r| <= 2 * PercentSum(r) <= 200 + |r|
  {
    var t, n := Tally(events), |events|;
    TallyTotal(events);
    TallyKeys(events);
    var r := EventTypeStats(Some(t), n);
    PercentSumOfShares(r, t, n);
    RoundedSharesBounds(t, n);
    CancelEvents(PercentSum(r), |r|, n);
  }

  // ---------------------------------------------------------------- the page

  /** The `stats` state; `eventTypes` is `None` until a fetch has set it. */
  datatype Stats = Stats(
    totalEvents: nat, totalTasks: nat, completedTasks: nat, studyHours: int, eventTypes: Option<seq<TypeCount>>)

  const InitialStats := Stats(0, 0, 0, 0, None)

  /**
   * The aggregation in `fetchData`: the totals, a `reduce` over the durations and a `forEach` that fills the
   * per-type counter.
   */
  method Aggregate(events: seq<Event>, tasks: seq<Task>) returns (stats: Stats)
    ensures stats.totalEvents == |events| && stats.totalTasks == |tasks|
    ensures stats.completedTasks == |Tasks.Completed(tasks)| <= |tasks|
    ensures stats.studyHours == StudyHours(events)
    ensures stats.eventTypes == Some(Tally(events))
  {
    var hours := 0;
    var i := 0;
    while i < |events|
      invariant 0 <= i <= |events|
      invariant hours == StudyHours(events[..i])
    {
      assert events[..i + 1][..i] == events[..i];
      hours := hours + events[i].duration.GetOr(0);
      i := i + 1;
    }
    assert events[..i] == events;
    var types: seq<TypeCount> := [];
    i := 0;
    while i < |events|
      invariant 0 <= i <= |events|
      invariant types == Tally(events[..i])
    {
      assert events[..i + 1][..i] == events[..i];
      types := Bump(types, events[i].eventType);
      i := i + 1;
    }
    assert events[..i] == events;
    stats := Stats(|events|, |tasks|, |Tasks.Completed(tasks)|, hours, Some(types));
  }

  /** The completed count of the aggregate is the number of completed tasks, and the pending ones make up the rest. */
  lemma CompletedCountFacts(tasks: seq<Task>)
    ensures |Tasks.Completed(tasks)| + |Tasks.Pending(tasks)| == |tasks|
    ensures forall t :: t in Tasks.Completed(tasks) <==> t in tasks && t.isCompleted
  {
    Tasks.PendingCompletedPartition(tasks);
    forall t
      ensures t in Tasks.Completed(tasks) <==> t in tasks && t.isCompleted
    {
      Tasks.FilterMembership(tasks, t);
    }
  }

  class StatisticsView {
    var stats: Stats
    var events: seq<Event>
    var loading: bool

    constructor()
      ensures stats == InitialStats && events == [] && loading
    {
      stats := InitialStats;
      events := [];
      loading := true;
    }

    /**
     * `fetchData`: `responses` holds both lists when both calls succeed and is `None` when either fails, in
     * which case the previous statistics stay. Loading ends either way.
     */
    method FetchData(responses: Option<(seq<Event>, seq<Task>)>)
      modifies this
      ensures responses.Some? ==>
        events == responses.value.0 &&
        stats.totalEvents == |responses.value.0| && stats.totalTasks == |responses.value.1| &&
        stats.completedTasks == |Tasks.Completed(responses.value.1)| &&
        stats.studyHours == StudyHours(responses.value.0) &&
        stats.eventTypes == Some(Tally(responses.value.0))
      ensures responses.None? ==> stats == old(stats) && events == old(events)
      ensures !loading
    {
      if responses.Some? {
        var (eventsData, tasksData) := responses.value;
        var s := Aggregate(eventsData, tasksData);
        events := eventsData;
        stats := s;
      }
      loading := false;
    }
  }
}
