/**
 * The dashboard: the three most recently created events (the fetched array sorted in place, newest first,
 * then cut to three), today's schedule, and the dashboard's own, shorter, event-type lookups.
 */
module Dashboard {
  import opened Common
  import opened Records
  import Schedule

  // ---------------------------------------------------------------- newest first

  /** Every event is at least as recent as every event after it. */
  predicate NewestFirst(s: seq<Event>) {
    forall i, j :: 0 <= i < j < |s| ==> s[i].createdAt >= s[j].createdAt
  }

  /**
   * Where the comparator puts `x` behind events already in newest-first order: after every event at least as
   * recent, so that among equal timestamps the later event stays later.
   */
  function InsertNewest(s: seq<Event>, x: Event): (r: seq<Event>)
    ensures |r| == |s| + 1
  {
    if s == [] || s[|s| - 1].createdAt >= x.createdAt then s + [x]
    else InsertNewest(s[..|s| - 1], x) + [s[|s| - 1]]
  }

  /** The order `sort` leaves `events` in: each event in turn inserted behind those before it. */
  function SortNewest(s: seq<Event>): (r: seq<Event>)
    ensures |r| == |s|
  {
    if s == [] then [] else InsertNewest(SortNewest(s[..|s| - 1]), s[|s| - 1])
  }

  /** The events created at time `t`, in their order in `s`. */
  function CreatedAt(s: seq<Event>, t: int): (r: seq<Event>)
    ensures |r| <= |s|
  {
    if s == [] then []
    else CreatedAt(s[..|s| - 1], t) + (if s[|s| - 1].createdAt == t then [s[|s| - 1]] else [])
  }

  /** Inserting keeps the events, plus the one inserted. */
  lemma {:induction false} InsertNewestKeeps(s: seq<Event>, x: Event)
    ensures multiset(InsertNewest(s, x)) == multiset(s) + multiset{x}
  {
    if s != [] && s[|s| - 1].createdAt < x.createdAt {
      InsertNewestKeeps(s[..|s| - 1], x);
      assert s == s[..|s| - 1] + [s[|s| - 1]];
    }
  }

  /** Inserting into a newest-first list gives a newest-first list. */
  lemma {:induction false} InsertNewestOrders(s: seq<Event>, x: Event)
    requires NewestFirst(s)
    ensures NewestFirst(InsertNewest(s, x))
  {
    if s != [] && s[|s| - 1].createdAt < x.createdAt {
      var init, last := s[..|s| - 1], s[|s| - 1];
      InsertNewestOrders(init, x);
      InsertNewestKeeps(init, x);
      var r := InsertNewest(init, x);
      forall y | y in r
        ensures y.createdAt >= last.createdAt
      {
        assert y in multiset(r);
        if y != x {
          assert y in multiset(init);
          var k :| 0 <= k < |init| && init[k] == y;
          assert s[k] == y;
        }
      }
      assert forall k :: 0 <= k < |r| ==> r[k] in r;
    }
  }

  /** Inserting `x` puts it behind every event created at the same time. */
  lemma {:induction false} InsertNewestTies(s: seq<Event>, x: Event, t: int)
    ensures CreatedAt(InsertNewest(s, x), t) == CreatedAt(s, t) + (if x.createdAt == t then [x] else [])
  {
    if s == [] || s[|s| - 1].createdAt >= x.createdAt {
      assert (s + [x])[..|s|] == s;
    } else {
      var init, last := s[..|s| - 1], s[|s| - 1];
      InsertNewestTies(init, x, t);
      var r := InsertNewest(init, x) + [last];
      assert r[..|r| - 1] == InsertNewest(init, x);
    }
  }

  /**
   * The sorted order is newest first and a permutation, and it is stable: the events created at any one time
   * keep their order.
   */
  lemma {:induction false} SortNewestFacts(s: seq<Event>)
    ensures NewestFirst(SortNewest(s))
    ensures multiset(SortNewest(s)) == multiset(s)
    ensures forall t :: CreatedAt(SortNewest(s), t) == CreatedAt(s, t)
  {
    if s != [] {
      var init, last := s[..|s| - 1], s[|s| - 1];
      SortNewestFacts(init);
      InsertNewestOrders(SortNewest(init), last);
      InsertNewestKeeps(SortNewest(init), last);
      assert s == init + [last];
      forall t
        ensures CreatedAt(SortNewest(s), t) == CreatedAt(s, t)
      {
        InsertNewestTies(SortNewest(init), last, t);
      }
    }
  }

  /**
   * `events.sort((a, b) => new Date(b.created_at) - new Date(a.created_at))`: an insertion sort by adjacent
   * swaps that leaves the array in `SortNewest` order: newest first, the same elements, and equal timestamps
   * in their fetched order, as a stable sort must.
   */
  method SortNewestFirst(a: array<Event>)
    modifies a
    ensures a[..] == SortNewest(old(a[..]))
    ensures NewestFirst(a[..])
    ensures multiset(a[..]) == multiset(old(a[..]))
    ensures forall t :: CreatedAt(a[..], t) == CreatedAt(old(a[..]), t)
  {
    ghost var o := a[..];
    var i := 0;
    while i < a.Length
      invariant 0 <= i <= a.Length
      invariant a[..] == SortNewest(o[..i]) + o[i..]
    {
      InsertNewestFirst(a, i);
      assert o[..i + 1][..i] == o[..i];
      i := i + 1;
    }
    assert o[..a.Length] == o;
    SortNewestFacts(o);
  }

  /** One insertion step: moves `a[i]` left past every strictly older event before it. */
  method InsertNewestFirst(a: array<Event>, i: nat)
    requires i < a.Length
    modifies a
    ensures a[..] == InsertNewest(old(a[..i]), old(a[i])) + old(a[i + 1..])
  {
    ghost var o := a[..];
    var x := a[i];
    var j := i;
    while j > 0 && a[j - 1].createdAt < a[j].createdAt
      invariant 0 <= j <= i
      invariant a[..] == o[..j] + [x] + o[j..i] + o[i + 1..]
      invariant InsertNewest(o[..i], x) == InsertNewest(o[..j], x) + o[j..i]
    {
      assert a[j - 1] == o[j - 1] && a[j] == x;
      InsertStep(o, x, i, j);
      SwapWithPrevious(a, j);
      ShiftedSlices(o, x, i, j);
      j := j - 1;
    }
    assert o[..j + 1][..j] == o[..j];
  }

  /** Moving `x` one place left past a strictly older event, in the specification. */
  lemma InsertStep(o: seq<Event>, x: Event, i: nat, j: nat)
    requires 0 < j <= i <= |o| && o[j - 1].createdAt < x.createdAt
    requires InsertNewest(o[..i], x) == InsertNewest(o[..j], x) + o[j..i]
    ensures InsertNewest(o[..i], x) == InsertNewest(o[..j - 1], x) + o[j - 1..i]
  {
    assert o[..j][..j - 1] == o[..j - 1];
    assert o[j - 1..i] == [o[j - 1]] + o[j..i];
  }

  /** Exchanges `a[j - 1]` and `a[j]`, keeping the array's elements. */
  method SwapWithPrevious(a: array<Event>, j: nat)
    requires 0 < j < a.Length
    modifies a
    ensures a[..] == old(a[..])[j - 1 := old(a[j])][j := old(a[j - 1])]
  {
    a[j - 1], a[j] := a[j], a[j - 1];
  }

  /** The array after one swap, written as slices of the array before the insertion. */
  lemma ShiftedSlices(o: seq<Event>, x: Event, i: nat, j: nat)
    requires 0 < j <= i < |o|
    ensures (o[..j] + [x] + o[j..i] + o[i + 1..])[j - 1 := x][j := o[j - 1]] ==
      o[..j - 1] + [x] + o[j - 1..i] + o[i + 1..]
  {
  }

  /**
   * The first `k` events of a newest-first arrangement of `events`: newest first, drawn from `events`, and
   * at least as recent as every event left out.
   */
  lemma TopOfSorted(events: seq<Event>, sorted: seq<Event>, k: nat)
    requires NewestFirst(sorted) && multiset(sorted) == multiset(events) && k <= |sorted|
    ensures NewestFirst(sorted[..k])
    ensures multiset(sorted[..k]) <= multiset(events)
    ensures forall x, y :: x in multiset(events) - multiset(sorted[..k]) && y in sorted[..k] ==>
      x.createdAt <= y.createdAt
  {
    var top, rest := sorted[..k], sorted[k..];
    assert sorted == top + rest;
    assert multiset(events) - multiset(top) == multiset(rest);
    OlderAfterTop(sorted, k);
  }

  /** In a newest-first arrangement, nothing after position `k` is newer than anything before it. */
  lemma OlderAfterTop(sorted: seq<Event>, k: nat)
    requires NewestFirst(sorted) && k <= |sorted|
    ensures forall x, y :: x in multiset(sorted[k..]) && y in sorted[..k] ==> x.createdAt <= y.createdAt
  {
    forall x: Event, y: Event | x in multiset(sorted[k..]) && y in sorted[..k]
      ensures x.createdAt <= y.createdAt
    {
      var m :| 0 <= m < |sorted| - k && sorted[k..][m] == x;
      var l :| 0 <= l < k && sorted[..k][l] == y;
      assert sorted[l] == y && sorted[k + m] == x;
    }
  }

  /**
   * The recent-events list: the first three of the stable newest-first order, so at most three events, newest
   * first, all taken from `events`, and none of the events left out is newer than one that was kept.
   */
  method RecentEvents(events: seq<Event>) returns (recent: seq<Event>)
    ensures recent == Take(SortNewest(events), 3)
    ensures |recent| == if |events| < 3 then |events| else 3
    ensures NewestFirst(recent)
    ensures multiset(recent) <= multiset(events)
    ensures forall x, y :: x in multiset(events) - multiset(recent) && y in recent ==> x.createdAt <= y.createdAt
  {
    var a := new Event[|events|](i requires 0 <= i < |events| => events[i]);
    assert a[..] == events;
    SortNewestFirst(a);
    recent := Take(a[..], 3);
    TopOfSorted(events, a[..], |recent|);
  }

  // ---------------------------------------------------------------- lookups

  /** The dashboard's `getEventTypeClass`: it knows lectures, practice sessions and exams only. */
  function EventTypeClass(t: string): (r: string)
    ensures t == "lecture" || t == "practice" || t == "exam" ==> r == t
    ensures !(t == "lecture" || t == "practice" || t == "exam") ==> r == ""
  {
    match t
    case "lecture" => "lecture"
    case "practice" => "practice"
    case "exam" => "exam"
    case _ => ""
  }

  /** The dashboard's `getEventTypeLabel`, with the same three types. */
  function EventTypeLabel(t: string): (r: string)
    ensures t == "lecture" ==> r == "Лекция"
    ensures t == "practice" ==> r == "Практика"
    ensures t == "exam" ==> r == "Экзамен"
    ensures !(t == "lecture" || t == "practice" || t == "exam") ==> r == t
  {
    match t
    case "lecture" => "Лекция"
    case "practice" => "Практика"
    case "exam" => "Экзамен"
    case _ => t
  }

  /**
   * The dashboard's lookups agree with the schedule page's on every type but one: a meeting gets no class and
   * its raw name on the dashboard, and the class "meeting" and the label "Встреча" on the schedule page.
   */
  lemma LookupsDifferOnlyOnMeeting(t: string)
    ensures t != "meeting" ==> EventTypeClass(t) == Schedule.EventTypeClass(t)
    ensures t != "meeting" ==> EventTypeLabel(t) == Schedule.EventTypeLabel(t)
    ensures EventTypeClass("meeting") == "" != Schedule.EventTypeClass("meeting")
    ensures EventTypeLabel("meeting") == "meeting" != Schedule.EventTypeLabel("meeting")
  {
  }

  // ---------------------------------------------------------------- the page

  class DashboardView {
    var recentEvents: seq<Event>
    var todaySchedule: seq<ScheduleItem>
    var loading: bool

    constructor()
      ensures recentEvents == [] && todaySchedule == [] && loading
    {
      recentEvents := [];
      todaySchedule := [];
      loading := true;
    }

    /**
     * `fetchDashboardData`: `responses` holds both bodies when both calls succeed (`None` for a `null` body)
     * and is `None` when either fails, which empties both lists. Loading ends either way.
     */
    method FetchDashboardData(responses: Option<(Option<seq<Event>>, Option<seq<ScheduleItem>>)>)
      modifies this
      ensures responses.Some? ==>
        var events := responses.value.0.GetOr([]);
        && recentEvents == Take(SortNewest(events), 3)
        && |recentEvents| == (if |events| < 3 then |events| else 3)
        && NewestFirst(recentEvents)
        && multiset(recentEvents) <= multiset(events)
        && (forall x, y :: x in multiset(events) - multiset(recentEvents) && y in recentEvents ==>
              x.createdAt <= y.createdAt)
        && todaySchedule == responses.value.1.GetOr([])
      ensures responses.None? ==> recentEvents == [] && todaySchedule == []
      ensures !loading
    {
      if responses.Some? {
        var recent := RecentEvents(responses.value.0.GetOr([]));
        recentEvents := recent;
        todaySchedule := responses.value.1.GetOr([]);
      } else {
        recentEvents := [];
        todaySchedule := [];
      }
      loading := false;
    }
  }
}
