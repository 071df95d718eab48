/**
 * The server's data handlers over an in-memory database: the 401 guard every data handler starts with, the
 * owner-scoped UPDATE and DELETE statements behind `ToggleTaskCompletion`, `DeleteTask`, `UpdateEvent` and
 * `DeleteEvent` with their rows-affected checks, and the read-only `GetSchedule`, `GetWeekSchedule` and
 * `CheckAuth`.
 *
 * A table is a sequence of rows in storage order; a statement's `WHERE id = $1 AND user_id = $2` becomes a
 * comparison of the row's key `(id, user_id)` with the pair the handler passes.
 */
module HandlerTables {
  import opened Common
  import opened Decimal
  import opened Handlers
  import Records

  type Task = Records.Task

  /** What a handler writes: a JSON body with status 200, or `http.Error` with a status and an error text. */
  datatype Response<T> = Ok(value: T) | Error(status: int, message: string)

  const MsgUnauthorized := "Неавторизованный доступ"
  const MsgBadFormat := "Неверный формат данных"
  const MsgTaskNotFound := "Задача не найдена или нет прав доступа"
  const MsgEventNotFound := "Событие не найдено или нет прав доступа"
  const MsgTaskDeleted := "Задача удалена"
  const MsgEventDeleted := "Событие удалено"
  const MsgEventUpdated := "Событие обновлено"

  /** The guard at the top of every data handler: no user id, no access. */
  function RequireUser(header: string, query: string): (r: Response<nat>)
    ensures r.Error? <==> UserIdFromRequest(header, query) == 0
    ensures r.Error? ==> r == Error(401, MsgUnauthorized)
    ensures r.Ok? ==> r.value > 0 && r.value == UserIdFromRequest(header, query)
  {
    var uid := UserIdFromRequest(header, query);
    if uid == 0 then Error(401, MsgUnauthorized) else Ok(uid)
  }

  /** `CheckAuth`'s answer: always "authenticated", with whatever id the request carries (0 for none). */
  datatype AuthStatus = AuthStatus(status: string, userId: nat)

  function CheckAuth(header: string, query: string): (r: AuthStatus)
    ensures r.status == "authenticated"
    ensures r.userId == 0 <==> RequireUser(header, query).Error?
    ensures r.userId != 0 ==> RequireUser(header, query) == Ok(r.userId)
  {
    AuthStatus("authenticated", UserIdFromRequest(header, query))
  }

  // ---------------------------------------------------------------- owner-scoped rows

  function TaskKey(t: Task): (int, int) {
    (t.id, t.userId)
  }

  function EventKey(e: EventRow): (int, int) {
    (e.id, e.userId)
  }

  /** The number of rows a statement `WHERE id = id AND user_id = uid` affects. */
  function CountOwned<T>(rows: seq<T>, key: T -> (int, int), id: int, uid: int): (n: nat)
    ensures n <= |rows|
  {
    if rows == [] then 0
    else CountOwned(rows[..|rows| - 1], key, id, uid) + (if key(rows[|rows| - 1]) == (id, uid) then 1 else 0)
  }

  /** No row is affected exactly when no row has the key. */
  lemma {:induction false} CountOwnedZero<T>(rows: seq<T>, key: T -> (int, int), id: int, uid: int)
    ensures CountOwned(rows, key, id, uid) == 0 <==> forall k :: 0 <= k < |rows| ==> key(rows[k]) != (id, uid)
  {
    if rows != [] {
      var init := rows[..|rows| - 1];
      CountOwnedZero(init, key, id, uid);
      if CountOwned(rows, key, id, uid) == 0 {
        forall k | 0 <= k < |rows|
          ensures key(rows[k]) != (id, uid)
        {
          if k < |init| {
            assert rows[k] == init[k];
          }
        }
      }
    }
  }

  /** The table after `DELETE ... WHERE id = id AND user_id = uid`, the other rows in their order. */
  function RemoveOwned<T>(rows: seq<T>, key: T -> (int, int), id: int, uid: int): (r: seq<T>)
    ensures |r| <= |rows|
  {
    if rows == [] then []
    else
      var last := rows[|rows| - 1];
      RemoveOwned(rows[..|rows| - 1], key, id, uid) + (if key(last) == (id, uid) then [] else [last])
  }

  /** A deletion removes exactly the rows with the key, as many as it reports affected, and keeps the others. */
  lemma {:induction false} RemoveOwnedFacts<T>(rows: seq<T>, key: T -> (int, int), id: int, uid: int, x: T)
    ensures x in RemoveOwned(rows, key, id, uid) <==> x in rows && key(x) != (id, uid)
    ensures |RemoveOwned(rows, key, id, uid)| == |rows| - CountOwned(rows, key, id, uid)
  {
    if rows != [] {
      var init := rows[..|rows| - 1];
      RemoveOwnedFacts(init, key, id, uid, x);
      assert rows == init + [rows[|rows| - 1]];
    }
  }

  /** A deletion that affects no row leaves the table as it was. */
  lemma {:induction false} RemoveNothing<T>(rows: seq<T>, key: T -> (int, int), id: int, uid: int)
    requires CountOwned(rows, key, id, uid) == 0
    ensures RemoveOwned(rows, key, id, uid) == rows
  {
    if rows != [] {
      var init := rows[..|rows| - 1];
      RemoveNothing(init, key, id, uid);
      assert rows == init + [rows[|rows| - 1]];
    }
  }

  /** `QueryRow(... WHERE id = id AND user_id = uid)`: the first row with the key, if any. */
  function FindOwned<T>(rows: seq<T>, key: T -> (int, int), id: int, uid: int): (r: Option<T>)
    ensures r.Some? ==> r.value in rows && key(r.value) == (id, uid)
    ensures r.None? <==> forall k :: 0 <= k < |rows| ==> key(rows[k]) != (id, uid)
  {
    if rows == [] then None
    else if key(rows[0]) == (id, uid) then Some(rows[0])
    else
      var r := FindOwned(rows[1..], key, id, uid);
      assert forall k :: 1 <= k < |rows| ==> rows[k] == rows[1..][k - 1];
      r
  }

  /** One task under `UPDATE tasks SET is_completed = done WHERE id = id AND user_id = uid`. */
  function Toggled(t: Task, id: int, uid: int, done: bool): Task {
    if TaskKey(t) == (id, uid) then t.(isCompleted := done) else t
  }

  /** The tasks table after the toggle's UPDATE. */
  function SetCompleted(tasks: seq<Task>, id: int, uid: int, done: bool): (r: seq<Task>)
    ensures |r| == |tasks|
  {
    seq(|tasks|, k requires 0 <= k < |tasks| => Toggled(tasks[k], id, uid, done))
  }

  /** The columns `UpdateEvent` decodes from the body and writes. */
  datatype EventInput = EventInput(
    title: string, description: string, eventType: string, subject: string, location: string, eventDate: int,
    startTime: int, duration: int)

  /**
   * One event under `UpdateEvent`'s UPDATE: the eight columns replaced, the decoded strings written as non-NULL
   * values; id, owner and creation time kept.
   */
  function Revised(e: EventRow, id: int, uid: int, input: EventInput): EventRow {
    if EventKey(e) == (id, uid) then
      e.(title := input.title, description := input.description, eventType := input.eventType,
         subject := Some(input.subject), location := Some(input.location), eventDate := input.eventDate,
         startTime := input.startTime, duration := input.duration)
    else e
  }

  /** The events table after `UpdateEvent`'s UPDATE. */
  function ReviseEvents(events: seq<EventRow>, id: int, uid: int, input: EventInput): (r: seq<EventRow>)
    ensures |r| == |events|
  {
    seq(|events|, k requires 0 <= k < |events| => Revised(events[k], id, uid, input))
  }

  /** An update keeps every row's key, so a row it affected is found again by the same key. */
  lemma UpdatedRowFound(tasks: seq<Task>, id: int, uid: int, done: bool)
    requires CountOwned(tasks, TaskKey, id, uid) > 0
    ensures var r := FindOwned(SetCompleted(tasks, id, uid, done), TaskKey, id, uid);
      r.Some? && r.value.isCompleted == done
  {
    CountOwnedZero(tasks, TaskKey, id, uid);
    var k :| 0 <= k < |tasks| && TaskKey(tasks[k]) == (id, uid);
    assert TaskKey(SetCompleted(tasks, id, uid, done)[k]) == (id, uid);
  }

  /** Toggling twice to the same status is the same as toggling once. */
  lemma SetCompletedIdempotent(tasks: seq<Task>, id: int, uid: int, done: bool)
    ensures SetCompleted(SetCompleted(tasks, id, uid, done), id, uid, done) == SetCompleted(tasks, id, uid, done)
  {
    var once := SetCompleted(tasks, id, uid, done);
    var twice := SetCompleted(once, id, uid, done);
    forall k | 0 <= k < |tasks|
      ensures twice[k] == once[k]
    {
      assert TaskKey(once[k]) == TaskKey(tasks[k]);
    }
  }

  // ---------------------------------------------------------------- the database

  class Database {
    var events: seq<EventRow>
    var tasks: seq<Task>

    constructor(events: seq<EventRow>, tasks: seq<Task>)
      ensures this.events == events && this.tasks == tasks
    {
      this.events := events;
      this.tasks := tasks;
    }

    /** `UPDATE tasks SET is_completed ... WHERE id AND user_id`, row by row, counting the rows it changes. */
    method ExecSetCompleted(id: int, uid: int, done: bool) returns (affected: nat)
      modifies this
      ensures tasks == SetCompleted(old(tasks), id, uid, done)
      ensures affected == CountOwned(old(tasks), TaskKey, id, uid)
      ensures events == old(events)
    {
      var out: seq<Task> := [];
      affected := 0;
      var i := 0;
      while i < |tasks|
        invariant 0 <= i <= |tasks|
        invariant |out| == i && forall k :: 0 <= k < i ==> out[k] == Toggled(tasks[k], id, uid, done)
        invariant affected == CountOwned(tasks[..i], TaskKey, id, uid)
      {
        assert tasks[..i + 1][..i] == tasks[..i];
        var t := tasks[i];
        if TaskKey(t) == (id, uid) {
          out := out + [t.(isCompleted := done)];
          affected := affected + 1;
        } else {
          out := out + [t];
        }
        i := i + 1;
      }
      assert tasks[..i] == tasks;
      tasks := out;
    }

    /** `DELETE FROM tasks WHERE id AND user_id`, row by row, counting the rows it removes. */
    method ExecDeleteTask(id: int, uid: int) returns (affected: nat)
      modifies this
      ensures tasks == RemoveOwned(old(tasks), TaskKey, id, uid)
      ensures affected == CountOwned(old(tasks), TaskKey, id, uid)
      ensures events == old(events)
    {
      var out: seq<Task> := [];
      affected := 0;
      var i := 0;
      while i < |tasks|
        invariant 0 <= i <= |tasks|
        invariant out == RemoveOwned(tasks[..i], TaskKey, id, uid)
        invariant affected == CountOwned(tasks[..i], TaskKey, id, uid)
      {
        assert tasks[..i + 1][..i] == tasks[..i];
        if TaskKey(tasks[i]) == (id, uid) {
          affected := affected + 1;
        } else {
          out := out + [tasks[i]];
        }
        i := i + 1;
      }
      assert tasks[..i] == tasks;
      tasks := out;
    }

    /** `UPDATE events SET ... WHERE id AND user_id`, row by row, counting the rows it changes. */
    method ExecReviseEvent(id: int, uid: int, input: EventInput) returns (affected: nat)
      modifies this
      ensures events == ReviseEvents(old(events), id, uid, input)
      ensures affected == CountOwned(old(events), EventKey, id, uid)
      ensures tasks == old(tasks)
    {
      var out: seq<EventRow> := [];
      affected := 0;
      var i := 0;
      while i < |events|
        invariant 0 <= i <= |events|
        invariant |out| == i && forall k :: 0 <= k < i ==> out[k] == Revised(events[k], id, uid, input)
        invariant affected == CountOwned(events[..i], EventKey, id, uid)
      {
        assert events[..i + 1][..i] == events[..i];
        out := out + [Revised(events[i], id, uid, input)];
        if EventKey(events[i]) == (id, uid) {
          affected := affected + 1;
        }
        i := i + 1;
      }
      assert events[..i] == events;
      events := out;
    }

    /** `DELETE FROM events WHERE id AND user_id`, row by row, counting the rows it removes. */
    method ExecDeleteEvent(id: int, uid: int) returns (affected: nat)
      modifies this
      ensures events == RemoveOwned(old(events), EventKey, id, uid)
      ensures affected == CountOwned(old(events), EventKey, id, uid)
      ensures tasks == old(tasks)
    {
      var out: seq<EventRow> := [];
      affected := 0;
      var i := 0;
      while i < |events|
        invariant 0 <= i <= |events|
        invariant out == RemoveOwned(events[..i], EventKey, id, uid)
        invariant affected == CountOwned(events[..i], EventKey, id, uid)
      {
        assert events[..i + 1][..i] == events[..i];
        if EventKey(events[i]) == (id, uid) {
          affected := affected + 1;
        } else {
          out := out + [events[i]];
        }
        i := i + 1;
      }
      assert events[..i] == events;
      events := out;
    }

    /**
     * `ToggleTaskCompletion`: 401 without a user (before the body is read), 400 for a body that does not
     * decode (`None`), 404 when no task has both the path id and the caller's id, and otherwise the task as
     * re-read after the update. Only the caller's task with that id changes, and only its completion flag.
     */
    method ToggleTaskCompletion(header: string, query: string, pathId: string, body: Option<bool>)
      returns (resp: Response<Task>)
      modifies this
      ensures events == old(events)
      ensures RequireUser(header, query).Error? ==> resp == Error(401, MsgUnauthorized) && tasks == old(tasks)
      ensures RequireUser(header, query).Ok? && body.None? ==> resp == Error(400, MsgBadFormat) && tasks == old(tasks)
      ensures RequireUser(header, query).Ok? && body.Some? ==>
        var uid, id := RequireUser(header, query).value, PathId(pathId);
        && tasks == SetCompleted(old(tasks), id, uid, body.value)
        && (CountOwned(old(tasks), TaskKey, id, uid) == 0 ==> resp == Error(404, MsgTaskNotFound))
        && (CountOwned(old(tasks), TaskKey, id, uid) > 0 ==>
              resp.Ok? && resp.value in tasks && TaskKey(resp.value) == (id, uid) &&
              resp.value.isCompleted == body.value)
      ensures |tasks| == |old(tasks)|
      ensures forall k :: 0 <= k < |tasks| && old(tasks)[k].userId != UserIdFromRequest(header, query) ==>
        tasks[k] == old(tasks)[k]
    {
      var user := RequireUser(header, query);
      if user.Error? {
        return Error(401, MsgUnauthorized);
      }
      var uid, id := user.value, PathId(pathId);
      if body.None? {
        return Error(400, MsgBadFormat);
      }
      var affected := ExecSetCompleted(id, uid, body.value);
      if affected == 0 {
        return Error(404, MsgTaskNotFound);
      }
      UpdatedRowFound(old(tasks), id, uid, body.value);
      resp := Ok(FindOwned(tasks, TaskKey, id, uid).value);
    }

    /**
     * `DeleteTask`: 401 without a user, 404 when no task has both the path id and the caller's id, and
     * otherwise the confirmation. Exactly the caller's tasks with that id are gone.
     */
    method DeleteTask(header: string, query: string, pathId: string) returns (resp: Response<string>)
      modifies this
      ensures events == old(events)
      ensures RequireUser(header, query).Error? ==> resp == Error(401, MsgUnauthorized) && tasks == old(tasks)
      ensures RequireUser(header, query).Ok? ==>
        var uid, id := RequireUser(header, query).value, PathId(pathId);
        && tasks == RemoveOwned(old(tasks), TaskKey, id, uid)
        && (CountOwned(old(tasks), TaskKey, id, uid) == 0 ==> resp == Error(404, MsgTaskNotFound))
        && (CountOwned(old(tasks), TaskKey, id, uid) > 0 ==> resp == Ok(MsgTaskDeleted))
    {
      var user := RequireUser(header, query);
      if user.Error? {
        return Error(401, MsgUnauthorized);
      }
      var affected := ExecDeleteTask(PathId(pathId), user.value);
      resp := if affected == 0 then Error(404, MsgTaskNotFound) else Ok(MsgTaskDeleted);
    }

    /**
     * `UpdateEvent`: 401 without a user, 400 for a body that does not decode, 404 when no event has both the
     * path id and the caller's id, and otherwise the confirmation. Other users' events never change.
     */
    method UpdateEvent(header: string, query: string, pathId: string, body: Option<EventInput>)
      returns (resp: Response<string>)
      modifies this
      ensures tasks == old(tasks)
      ensures RequireUser(header, query).Error? ==> resp == Error(401, MsgUnauthorized) && events == old(events)
      ensures RequireUser(header, query).Ok? && body.None? ==>
        resp == Error(400, MsgBadFormat) && events == old(events)
      ensures RequireUser(header, query).Ok? && body.Some? ==>
        var uid, id := RequireUser(header, query).value, PathId(pathId);
        && events == ReviseEvents(old(events), id, uid, body.value)
        && (CountOwned(old(events), EventKey, id, uid) == 0 ==> resp == Error(404, MsgEventNotFound))
        && (CountOwned(old(events), EventKey, id, uid) > 0 ==> resp == Ok(MsgEventUpdated))
      ensures |events| == |old(events)|
      ensures forall k :: 0 <= k < |events| && old(events)[k].userId != UserIdFromRequest(header, query) ==>
        events[k] == old(events)[k]
    {
      var user := RequireUser(header, query);
      if user.Error? {
        return Error(401, MsgUnauthorized);
      }
      if body.None? {
        return Error(400, MsgBadFormat);
      }
      var affected := ExecReviseEvent(PathId(pathId), user.value, body.value);
      resp := if affected == 0 then Error(404, MsgEventNotFound) else Ok(MsgEventUpdated);
    }

    /**
     * `DeleteEvent`: 401 without a user, 404 when no event has both the path id and the caller's id, and
     * otherwise the confirmation. Exactly the caller's events with that id are gone.
     */
    method DeleteEvent(header: string, query: string, pathId: string) returns (resp: Response<string>)
      modifies this
      ensures tasks == old(tasks)
      ensures RequireUser(header, query).Error? ==> resp == Error(401, MsgUnauthorized) && events == old(events)
      ensures RequireUser(header, query).Ok? ==>
        var uid, id := RequireUser(header, query).value, PathId(pathId);
        && events == RemoveOwned(old(events), EventKey, id, uid)
        && (CountOwned(old(events), EventKey, id, uid) == 0 ==> resp == Error(404, MsgEventNotFound))
        && (CountOwned(old(events), EventKey, id, uid) > 0 ==> resp == Ok(MsgEventDeleted))
    {
      var user := RequireUser(header, query);
      if user.Error? {
        return Error(401, MsgUnauthorized);
      }
      var affected := ExecDeleteEvent(PathId(pathId), user.value);
      resp := if affected == 0 then Error(404, MsgEventNotFound) else Ok(MsgEventDeleted);
    }

    /**
     * `GetSchedule`: 401 without a user; otherwise the selected rows that scan, in query order, appended one by
     * one. A row that fails to scan is skipped.
     */
    method GetSchedule(header: string, query: string, today: int) returns (resp: Response<seq<ScheduleRow>>)
      ensures RequireUser(header, query).Error? ==> resp == Error(401, MsgUnauthorized)
      ensures RequireUser(header, query).Ok? ==>
        resp == Ok(Scanned(UpcomingSchedule(events, RequireUser(header, query).value, today)))
    {
      var user := RequireUser(header, query);
      if user.Error? {
        return Error(401, MsgUnauthorized);
      }
      var picked := UpcomingSchedule(events, user.value, today);
      var schedule: seq<ScheduleRow> := [];
      var i := 0;
      while i < |picked|
        invariant 0 <= i <= |picked|
        invariant schedule == Scanned(picked[..i])
      {
        assert picked[..i + 1][..i] == picked[..i];
        var item := Scan(picked[i]);
        if item.Some? {
          schedule := schedule + [item.value];
        }
        i := i + 1;
      }
      assert picked[..i] == picked;
      resp := Ok(schedule);
    }

    /**
     * `GetWeekSchedule`: 401 without a user; otherwise the rows of the current Monday-to-Sunday week grouped
     * by date. A date is a key exactly when the caller has an event that day inside the window whose row
     * scans, and its list holds that day's scanned rows in query order.
     */
    method GetWeekSchedule(header: string, query: string, today: int)
      returns (resp: Response<map<int, seq<WeekEntry>>>)
      ensures RequireUser(header, query).Error? ==> resp == Error(401, MsgUnauthorized)
      ensures RequireUser(header, query).Ok? ==>
        var uid := RequireUser(header, query).value;
        && resp.Ok?
        && (forall d :: d in resp.value <==>
              && WeekStart(today) <= d <= WeekEnd(today)
              && exists e :: e in events && e.userId == uid && e.eventDate == d && Scannable(e))
        && (forall d :: d in resp.value ==> resp.value[d] == Bucket(WeekScan(events, uid, today), d))
    {
      var user := RequireUser(header, query);
      if user.Error? {
        return Error(401, MsgUnauthorized);
      }
      var uid := user.value;
      var week := GroupByDate(WeekScan(events, uid, today));
      forall d
        ensures HasDate(WeekScan(events, uid, today), d) <==>
          && WeekStart(today) <= d <= WeekEnd(today)
          && exists e :: e in events && e.userId == uid && e.eventDate == d && Scannable(e)
      {
        WeekScanHasDate(events, uid, today, d);
      }
      resp := Ok(week);
    }
  }

  /** The week query's rows in `ORDER BY event_date, start_time` order, each scanned; `None` marks a failure. */
  function WeekScan(table: seq<EventRow>, uid: int, today: int): seq<Option<ScheduleRow>> {
    var rows := SortBySlot(WeekRows(table, uid, today));
    seq(|rows|, k requires 0 <= k < |rows| => Scan(rows[k]))
  }

  /**
   * A date occurs among the week's scanned rows exactly when the caller has an event that day inside the window
   * whose row scans.
   */
  lemma WeekScanHasDate(table: seq<EventRow>, uid: int, today: int, d: int)
    ensures HasDate(WeekScan(table, uid, today), d) <==>
      && WeekStart(today) <= d <= WeekEnd(today)
      && exists e :: e in table && e.userId == uid && e.eventDate == d && Scannable(e)
  {
    if HasDate(WeekScan(table, uid, today), d) {
      WeekScanDateFromTable(table, uid, today, d);
    }
    if WeekStart(today) <= d <= WeekEnd(today) && exists e :: e in table && e.userId == uid && e.eventDate == d && Scannable(e) {
      var e :| e in table && e.userId == uid && e.eventDate == d && Scannable(e);
      WeekScanDateOfEvent(table, uid, today, e);
    }
  }

  /** A date among the week's scanned rows comes from an owned, scannable event inside the window. */
  lemma WeekScanDateFromTable(table: seq<EventRow>, uid: int, today: int, d: int)
    requires HasDate(WeekScan(table, uid, today), d)
    ensures WeekStart(today) <= d <= WeekEnd(today)
    ensures exists e :: e in table && e.userId == uid && e.eventDate == d && Scannable(e)
  {
    var rows := SortBySlot(WeekRows(table, uid, today));
    var scan := WeekScan(table, uid, today);
    SortBySlotFacts(WeekRows(table, uid, today));
    var i :| 0 <= i < |scan| && scan[i].Some? && scan[i].value.eventDate == d;
    assert rows[i] in multiset(rows);
    WeekRowsMembership(table, uid, today, rows[i]);
  }

  /** An owned, scannable event inside the window puts its date among the week's scanned rows. */
  lemma WeekScanDateOfEvent(table: seq<EventRow>, uid: int, today: int, e: EventRow)
    requires e in table && e.userId == uid && Scannable(e)
    requires WeekStart(today) <= e.eventDate <= WeekEnd(today)
    ensures HasDate(WeekScan(table, uid, today), e.eventDate)
  {
    var rows := SortBySlot(WeekRows(table, uid, today));
    var scan := WeekScan(table, uid, today);
    SortBySlotFacts(WeekRows(table, uid, today));
    WeekRowsMembership(table, uid, today, e);
    assert e in multiset(rows);
    var i :| 0 <= i < |rows| && rows[i] == e;
    assert scan[i].Some? && scan[i].value.eventDate == e.eventDate;
  }
}
