# Student planner — a Dafny model of its core

This project models the core of the student planner. The planner is a React client with a Go server. Students keep
their study events (lectures, practice sessions, exams, meetings) and their tasks in it.

The model covers these parts of the client:

- The task page (`Tasks`): the pending/completed split, the priority lookups, and the create, toggle and delete
  handlers, each a state transition.
- The schedule page (`Schedule`): loading, creating and deleting events, the form defaults, the type lookups and
  the message styling.
- The dashboard (`Dashboard`): the three most recent events, found by an in-place sort of the fetched array, and
  the dashboard's own type lookups.
- The statistics page (`Statistics`): the totals, the per-type counter with its insertion order, the completion
  rate and the per-type percentages.
- The application shell (`App`): the server probe, the saved-session check, login, register and logout, and the
  route table.
- The API layer (`Api`, with `Storage` for `localStorage`): reading the user id back from storage, the two
  request headers, and the session teardown on a 401.

It also models the server's `handlers.go`:

- Who is asking (`getUserIdFromRequest`), and the `{id}` path segment read by `strconv.Atoi` with its error
  ignored (`Handlers`).
- The Monday-to-Sunday week window and the grouping of its rows by date (`Handlers`).
- The selection rule of `GetSchedule` (`Handlers`).
- The owner-scoped `ToggleTaskCompletion`, `DeleteTask`, `UpdateEvent` and `DeleteEvent` over an in-memory
  database, with the 401/400/404 answers, plus `GetSchedule`, `GetWeekSchedule` and `CheckAuth`
  (`HandlerTables`).

`EndToEnd` ties the two sides together. The id a login saves is the id the server reads from every later request.

Conventions of the model:

- **Client state.** Each React component whose handlers call setters is a class. Its fields are the component's
  state variables.
- **Server replies.** A handler's awaited server call is an input: `Reply.Success(body)` or
  `Reply.Failure(error.response?.data)`. Its outputs say which request it issues.
- **`window.confirm`.** A boolean input.
- **JSON.** Values are the primitives and flat or nested objects the client stores and reads (module `Json`).
  `JSON.stringify` and `JSON.parse` are functions on them, proved to round-trip.
- **Durations.** Integer tenths of an hour; the column is `DECIMAL(3,1)`.
- **Dates, times and timestamps.**
  - On the server, dates are day numbers counted from 1970-01-01, a Thursday, so that `(d + 4) % 7` is Go's
    `time.Weekday`. Start times are minutes, and `created_at` is an integer timestamp.
  - On the client, dates and times stay the strings the forms send.
- **Server integers.** Go's `int` is 64-bit.
- **Tables.** A database table is a sequence of rows in storage order.

Modules, in dependency order:

- `Common`: `Option`, JavaScript's `trim`, `includes` and `slice`.
- `Decimal`: integer ↔ decimal text, and Go's `strconv.Atoi`.
- `Json`
- `Records`
- `Storage`
- `Tasks`
- `Statistics`
- `Schedule`
- `Dashboard`
- `Api`
- `App`
- `Handlers`
- `HandlerTables`
- `EndToEnd`

## Model

| member | source | states |
|---|---|---|
| Common.TrimEmptyIffBlank | student-planner/client/src/components/Tasks.js:46 | `!title.trim()` holds exactly when the title is empty or JavaScript whitespace only |
| Common.Contains | student-planner/client/src/components/Schedule.js:144 | `includes` is true exactly when the word occurs at some position of the message |
| Common.Take | student-planner/client/src/components/Dashboard.js:23 | `slice(0, n)` has min(length, n) elements and is a prefix of the array |
| Decimal.Atoi | student-planner/server/handlers.go:50 | `strconv.Atoi` accepts only an optional sign followed by digits, with a value inside the 64-bit range |
| Decimal.AtoiOfIntToString | student-planner/client/src/services/api.js:39 | the text `toString` writes for any 64-bit integer is read back by `strconv.Atoi` as the same integer |
| Decimal.AtoiRejectsNonDigit | student-planner/server/handlers.go:50 | a non-digit anywhere after the first character makes `strconv.Atoi` fail |
| Json.Get | student-planner/client/src/services/api.js:20 | a property is absent exactly when no member has the key; a present value is one of the members' values |
| Json.Or | student-planner/client/src/services/api.js:20 | `a \|\| b` is `a` when `a` is truthy and `b` otherwise |
| Json.ParseStringify | student-planner/client/src/App.js:75 | `JSON.parse(JSON.stringify(v))` gives back `v` for every value the client stores |
| Records.ErrorText | student-planner/client/src/components/Schedule.js:84 | the server's `error` text when the rejected body has a truthy `error` member, otherwise the fixed fallback |
| Tasks.Completed | student-planner/client/src/components/Tasks.js:122 | every task kept is completed, and there are no more of them than tasks |
| Tasks.Pending | student-planner/client/src/components/Tasks.js:121 | every task kept is not completed, and there are no more of them than tasks |
| Tasks.FilterMembership | student-planner/client/src/components/Tasks.js:121-122 | a task is in the completed list iff it is in the list and completed, and in the pending list iff it is in the list and not completed |
| Tasks.FilterAppend | student-planner/client/src/components/Tasks.js:121-122 | both filters commute with concatenation, so each keeps the tasks' relative order |
| Tasks.PendingCompletedPartition | student-planner/client/src/components/Tasks.js:121-122 | pending and completed together hold every task exactly once (lengths and multisets add up) |
| Tasks.ReplaceById | student-planner/client/src/components/Tasks.js:72-74 | the length is kept; each position holds the server's record when its id matches, else the old task |
| Tasks.RemoveById | student-planner/client/src/components/Tasks.js:90 | a task stays iff it was in the list and its id differs |
| Tasks.RemoveByIdAppend | student-planner/client/src/components/Tasks.js:90 | removal commutes with concatenation, so the remaining tasks keep their order |
| Tasks.RemoveByIdLength | student-planner/client/src/components/Tasks.js:90 | removal shortens the list by exactly the number of tasks with that id |
| Tasks.CountId | student-planner/client/src/components/Tasks.js:90 | no task has the id exactly when the count is 0 |
| Tasks.NewTaskShowsFirst | student-planner/client/src/components/Tasks.js:53 | a created (pending) task heads the pending list and leaves the completed list unchanged |
| Tasks.PriorityLabel | student-planner/client/src/components/Tasks.js:98-105 | the three levels map to their Russian labels; any other value shows as itself |
| Tasks.PriorityLabelsDistinct | student-planner/client/src/components/Tasks.js:98-105 | the three labels differ from each other and from the level names |
| Tasks.PriorityClass | student-planner/client/src/components/Tasks.js:107-109 | the class is `priority-` followed by the level |
| Tasks.PriorityClassInjective | student-planner/client/src/components/Tasks.js:107-109 | different priorities never share a class |
| Tasks.TasksView.constructor | student-planner/client/src/components/Tasks.js:5-14 | empty list, the empty form with priority "medium", loading, no messages |
| Tasks.TasksView.FetchTasks | student-planner/client/src/components/Tasks.js:20-31 | the list becomes the body, or the load error is set and the list stays; loading ends |
| Tasks.TasksView.HandleSubmit | student-planner/client/src/components/Tasks.js:41-65 | a blank title stops before any request with its message; otherwise the form is sent, and success prepends the server's task, resets the form and sets the success text, while failure sets the error and keeps the form |
| Tasks.TasksView.HandleToggleComplete | student-planner/client/src/components/Tasks.js:67-81 | the negated status is sent; success swaps in the server's record for that id, failure sets the error and keeps the list |
| Tasks.TasksView.HandleDeleteTask | student-planner/client/src/components/Tasks.js:83-96 | nothing happens without confirmation; success removes every task with that id, failure keeps the list and sets the error |
| Tasks.DeleteLeavesNoTaskWithId | student-planner/client/src/components/Tasks.js:90 | after removal no task has the id and every other task is still there |
| Tasks.ToggleMovesTask | student-planner/client/src/components/Tasks.js:70-74 | after a toggle to completed, the task has left the pending list and is in the completed list |
| Statistics.StudyHoursAppend | student-planner/client/src/components/Statistics.js:31 | the duration sum adds up over concatenation (the `reduce` is a fold) |
| Statistics.StudyHoursSingle | student-planner/client/src/components/Statistics.js:31 | the sum starts at 0; one event contributes its duration, 0 when it has none |
| Statistics.StudyHoursNonNegative | student-planner/client/src/components/Statistics.js:31 | with no negative duration the sum is not negative |
| Statistics.BumpKeys | student-planner/client/src/components/Statistics.js:35 | incrementing a key keeps the key order, appending a key seen for the first time |
| Statistics.BumpLookup | student-planner/client/src/components/Statistics.js:35 | the incremented key reads one more, every other key reads the same |
| Statistics.BumpTotal | student-planner/client/src/components/Statistics.js:35 | each increment raises the sum of the counts by one |
| Statistics.BumpPositive | student-planner/client/src/components/Statistics.js:35 | no key ever holds 0 |
| Statistics.TallyKeys | student-planner/client/src/components/Statistics.js:33-36 | the counter's keys are the event types in order of first occurrence, each once |
| Statistics.TallyCounts | student-planner/client/src/components/Statistics.js:33-36 | each key holds the number of events of that type |
| Statistics.TallyTotal | student-planner/client/src/components/Statistics.js:33-36 | the counts sum to the number of events and are all at least 1 |
| Statistics.TypesInOrderMembership | student-planner/client/src/components/Statistics.js:33-36 | a type is a key exactly when some event has that type |
| Statistics.LookupDistinct | student-planner/client/src/components/Statistics.js:69 | with distinct keys, reading a key gives the count stored beside it |
| Statistics.CountAtMostTotal | student-planner/client/src/components/Statistics.js:72 | no single count exceeds the total |
| Statistics.RoundPercent | student-planner/client/src/components/Statistics.js:72 | the result is 100·count/total rounded half up: within half a unit |
| Statistics.PercentBounds | student-planner/client/src/components/Statistics.js:72 | a part of the whole gives a percentage in 0..100 |
| Statistics.CompletionRate | student-planner/client/src/components/Statistics.js:53-56 | 0 with no tasks, otherwise the rounded percentage of completed tasks |
| Statistics.CompletionRateFacts | student-planner/client/src/components/Statistics.js:53-56 | a task list's rate lies in 0..100; 2 of 3 gives 67, 1 of 2 gives 50 |
| Statistics.EventTypeStats | student-planner/client/src/components/Statistics.js:58-74 | no counter or an empty one gives the four zero rows; otherwise one row per key, in key order, with its count and its percentage: the count's rounded share of the total, or 0 when the total is not positive |
| Statistics.EventTypeStatsOfEvents | student-planner/client/src/components/Statistics.js:58-74 | for fetched events, each row's count is the number of events of its type and its percentage is that count's rounded share of all events, in 0..100 |
| Statistics.RoundedSharesBounds | student-planner/client/src/components/Statistics.js:58-74 | the rounded shares of a counter's rows lie within half a point per row of the exact 100·total/n |
| Statistics.PercentSumOfShares | student-planner/client/src/components/Statistics.js:58-74 | a table whose rows hold the rounded shares of a counter sums to those shares |
| Statistics.PercentagesSumNear100 | student-planner/client/src/components/Statistics.js:58-74 | for fetched events, the percentage column sums to 100 give or take half a point per row |
| Statistics.EventTypeStatsNoEvents | student-planner/client/src/components/Statistics.js:59-66 | with no events the page shows the four default rows |
| Statistics.Aggregate | student-planner/client/src/components/Statistics.js:28-36 | the totals are the list lengths, the completed count and the study hours, and the counter is the tally of the events |
| Statistics.CompletedCountFacts | student-planner/client/src/components/Statistics.js:30 | the completed count and the pending count add up to all tasks, and the completed list holds exactly the completed tasks |
| Statistics.StatisticsView.constructor | student-planner/client/src/components/Statistics.js:5-12 | all totals zero, no counter, no events, loading |
| Statistics.StatisticsView.FetchData | student-planner/client/src/components/Statistics.js:18-51 | both responses set the events and the aggregate; a failure leaves both as they were; loading ends |
| Schedule.EventTypeClass | student-planner/client/src/components/Schedule.js:105-113 | the four known types are their own class, anything else has none |
| Schedule.EventTypeLabel | student-planner/client/src/components/Schedule.js:115-123 | the four known types get Russian labels, anything else shows as itself |
| Schedule.LookupsAgree | student-planner/client/src/components/Schedule.js:105-123 | a type has a class exactly when it has a translated label, and known types never share a label |
| Schedule.NoMarkerLetter | student-planner/client/src/components/Schedule.js:144 | a message without the letter 'п' is styled as an error |
| Schedule.SuccessMessagesStyled | student-planner/client/src/components/Schedule.js:144 | the create and delete success messages are styled as successes |
| Schedule.FailureMessagesStyled | student-planner/client/src/components/Schedule.js:144 | the page's validation and failure messages are styled as errors |
| Schedule.ServerErrorShown | student-planner/client/src/components/Schedule.js:84 | the server's `{"error": text}` is shown as text; no body or no `error` member gives the fallback |
| Schedule.DefaultForm | student-planner/client/src/components/Schedule.js:10-19 | empty texts, a lecture, today's date, 09:00, 1.5 hours |
| Schedule.ScheduleView.constructor | student-planner/client/src/components/Schedule.js:5-19 | empty list, form hidden, loading, no message, the default form |
| Schedule.ScheduleView.FetchEvents | student-planner/client/src/components/Schedule.js:25-36 | the list becomes the body (a `null` body counts as empty), or a failure empties it and sets the load error; loading ends |
| Schedule.ScheduleView.HandleSubmit | student-planner/client/src/components/Schedule.js:46-86 | title check, then date check, each stopping before any request; the form is sent; success resets the form and asks for a refetch, failure shows the server's error or the fallback |
| Schedule.ScheduleView.HandleDeleteEvent | student-planner/client/src/components/Schedule.js:88-103 | nothing happens without confirmation; success sets the message and asks for a refetch, failure shows the server's error or the fallback |
| Dashboard.SortNewestFirst | student-planner/client/src/components/Dashboard.js:22 | the array ends in the order `SortNewest` gives the old array: newest first, the same elements, and events with equal timestamps in their fetched order |
| Dashboard.InsertNewestFirst | student-planner/client/src/components/Dashboard.js:22 | one insertion step turns the prefix and its next element into `InsertNewest` of them; the rest of the array is untouched |
| Dashboard.InsertNewestKeeps | student-planner/client/src/components/Dashboard.js:22 | inserting keeps the events and adds the inserted one |
| Dashboard.InsertNewestOrders | student-planner/client/src/components/Dashboard.js:22 | inserting into a newest-first list gives a newest-first list |
| Dashboard.InsertNewestTies | student-planner/client/src/components/Dashboard.js:22 | the inserted event goes behind every event with the same timestamp, whose order is kept |
| Dashboard.SortNewestFacts | student-planner/client/src/components/Dashboard.js:22 | the sorted order is newest first, a permutation, and stable: the events of any one timestamp keep their fetched order |
| Dashboard.InsertStep | student-planner/client/src/components/Dashboard.js:22 | passing one strictly older event moves the inserted event one place left in the specified order |
| Dashboard.TopOfSorted | student-planner/client/src/components/Dashboard.js:21-23 | the first k of a sorted arrangement are sorted, drawn from the events, and at least as recent as every event left out |
| Dashboard.RecentEvents | student-planner/client/src/components/Dashboard.js:20-23 | the first three of the stable newest-first order: min(n, 3) events, newest first, from the fetched ones, none older than an event left out |
| Dashboard.EventTypeClass | student-planner/client/src/components/Dashboard.js:36-43 | lecture, practice and exam are their own class, anything else has none |
| Dashboard.EventTypeLabel | student-planner/client/src/components/Dashboard.js:45-52 | lecture, practice and exam get Russian labels, anything else shows as itself |
| Dashboard.LookupsDifferOnlyOnMeeting | student-planner/client/src/components/Dashboard.js:36-52 | the dashboard lookups agree with the schedule page on every type except "meeting" |
| Dashboard.DashboardView.constructor | student-planner/client/src/components/Dashboard.js:5-7 | both lists empty, loading |
| Dashboard.DashboardView.FetchDashboardData | student-planner/client/src/components/Dashboard.js:13-34 | both responses give the recent events (the first three of the stable newest-first order, as `RecentEvents` promises) and the schedule body; a failure empties both; loading ends |
| Storage.LocalStorage.GetItem | student-planner/client/src/services/api.js:31 | a stored key gives its string, a missing key gives `null` |
| Storage.LocalStorage.SetItem | student-planner/client/src/App.js:74-75 | the key now holds the value; every other key is unchanged |
| Storage.LocalStorage.RemoveItem | student-planner/client/src/services/api.js:60-61 | the key is gone; every other key is unchanged |
| Api.GetUserId | student-planner/client/src/services/api.js:15-27 | `null` without a non-empty stored user, for text that does not parse, and for a stored `null`; otherwise `id` when truthy, else `ID` |
| Api.GetUserIdOfStored | student-planner/client/src/services/api.js:19-20 | a stored object gives `id \|\| ID` |
| Api.RequestHeaders | student-planner/client/src/services/api.js:34-40 | Authorization is "Bearer " + token when a token is stored and untouched otherwise; X-User-ID is the id's text when truthy and untouched otherwise; every other header is unchanged |
| Api.RequestHeadersNoSession | student-planner/client/src/services/api.js:34-40 | with no session stored the headers are left exactly as they were |
| Api.NumericIdHeader | student-planner/client/src/services/api.js:38-40 | a non-zero numeric id is sent as its decimal numeral |
| Api.InterceptRequest | student-planner/client/src/services/api.js:29-43 | the config's headers become `RequestHeaders` of the old headers and the storage |
| Api.WithoutSession | student-planner/client/src/services/api.js:59-62 | the token and user keys are gone and every other key is unchanged |
| Api.TeardownClearsHeaders | student-planner/client/src/services/api.js:59-63 | after the teardown no id is read and later requests get neither session header |
| Api.HandleResponseError | student-planner/client/src/services/api.js:49-66 | a 401 clears the session keys and redirects to /login; any other status or no response leaves storage alone; the error is always rejected |
| App.Restore | student-planner/client/src/App.js:36-60 | a missing or empty key restores nothing and leaves storage alone; a parsable user is restored; an unparsable one is removed with the token |
| App.Defined | student-planner/client/src/App.js:65-70 | an undefined member is dropped, a defined one is kept |
| App.SavedUser | student-planner/client/src/App.js:65-70 | the saved object has at most the four members |
| App.Profile | student-planner/client/src/App.js:67-69 | at most email, name and created_at, none of them named id or ID |
| App.SessionToken | student-planner/client/src/App.js:72 | the token starts with "user-" |
| App.Login | student-planner/client/src/App.js:62-78 | signed in as the saved object; storage gets the token and the stringified user |
| App.Logout | student-planner/client/src/App.js:84-89 | signed out, no user, both keys removed |
| App.SavedUserId | student-planner/client/src/App.js:66 | the saved id is the body's `id`, else its `ID`; none with a falsy body; the saved object has no `ID` |
| App.LoginThenRestore | student-planner/client/src/App.js:47-75 | the next saved-session check restores exactly the session a login wrote |
| App.LoginThenUserId | student-planner/client/src/App.js:65-75 | after a login, requests read the saved id when it is truthy |
| App.LogoutThenRestore | student-planner/client/src/App.js:84-89 | after a logout or a 401 teardown no session is restored |
| App.AppState.constructor | student-planner/client/src/App.js:15-18 | signed out, no user, loading, status checking |
| App.AppState.CheckSavedSession | student-planner/client/src/App.js:36-60 | the state and storage become `Restore` of the old storage, and loading ends |
| App.AppState.CheckServerConnection | student-planner/client/src/App.js:24-34 | a reachable server is connected and the saved session is checked; an unreachable one is disconnected without reading storage; loading ends |
| App.AppState.RetryConnection | student-planner/client/src/App.js:91-95 | status back to checking and loading again, the session untouched |
| App.AppState.HandleLogin | student-planner/client/src/App.js:62-78 | state and storage become `Login` of the old storage, the body and the clock |
| App.AppState.HandleRegister | student-planner/client/src/App.js:80-82 | exactly what `HandleLogin` does |
| App.AppState.HandleLogout | student-planner/client/src/App.js:84-89 | state and storage become `Logout` of the old storage |
| App.Route | student-planner/client/src/App.js:127-196 | matching ignores trailing slashes and ASCII letter case; a protected page shows only when signed in, a public page only when signed out; a redirect goes to /dashboard when signed in and to /login or / otherwise |
| App.RoutePath | student-planner/client/src/App.js:127-196 | the form a location is matched in ends without a slash, unless it is the root "/" |
| App.RoutePathOfCanonical | student-planner/client/src/App.js:127-196 | a lower-case path without a trailing slash is matched as written |
| App.RouteIgnoresTrailingSlash | student-planner/client/src/App.js:127-196 | a slash more at the end of a location takes the same route |
| App.RouteIgnoresCase | student-planner/client/src/App.js:127-196 | a location and its lower-cased form take the same route |
| App.StripLower | student-planner/client/src/App.js:127-196 | lowering letters and dropping trailing slashes commute |
| App.RouteTargets | student-planner/client/src/App.js:128-162 | the routes of the three redirect targets /dashboard, /login and / for either session state |
| App.RouteGuard | student-planner/client/src/App.js:128-196 | a signed-out visitor on any protected path goes to /login, a signed-in user on /login or /register goes to /dashboard, and any unknown path goes to /dashboard when signed in and to / otherwise |
| App.RedirectSettles | student-planner/client/src/App.js:128-196 | every redirect reaches a shown page in one step (the dashboard when signed in, the login or landing page otherwise) |
| App.ProtectedPagesReachable | student-planner/client/src/App.js:128-189 | each page is shown at its own path for the right session state |
| App.RouteLeniency | student-planner/client/src/App.js:137-162 | signed out, "/login/" shows the login page and "/dashboard/" redirects to /login |
| App.RouteCaseExample | student-planner/client/src/App.js:182-189 | signed in, "/Stats" shows the statistics page |
| App.AppScreen | student-planner/client/src/App.js:97-126 | loading first, then the server error, then the routes with the header exactly when signed in |
| Handlers.UserIdFromRequest | student-planner/server/handlers.go:47-63 | 0 or a positive 64-bit id: the header's when accepted, else the query's when accepted, else 0, and 0 exactly when neither is accepted |
| Handlers.UserIdRoundTrip | student-planner/server/handlers.go:48-53 | the numeral of a positive id is read back as that id, from the header or from the query |
| Handlers.HeaderFallsThrough | student-planner/server/handlers.go:48-62 | any header that does not parse as an int or is not positive (missing, "0", "-3", "abc", out of range) gives way to the query parameter |
| Handlers.PathId | student-planner/server/handlers.go:484 | the value when it parses; the 64-bit bound on the side of the sign on a range error (the leading digits exceed 2^64 - 1, or a numeral is outside the 64-bit range); 0 on any other syntax error |
| Handlers.AtoiFailsOnlyOutOfRange | student-planner/server/handlers.go:484 | a numeral that does not parse is out of the 64-bit range |
| Handlers.PathIdRoundTrip | student-planner/server/handlers.go:484 | the client's numeric id comes back unchanged |
| Handlers.DigitRun | student-planner/server/handlers.go:484 | the leading digit run is an all-digit prefix that stops at the first non-digit |
| Handlers.AtoiFailsOnOverflow | student-planner/server/handlers.go:484 | leading digits beyond 2^64 - 1 make `Atoi` fail |
| Handlers.PathIdOfRunOverflow | student-planner/server/handlers.go:484 | overflowing leading digits give the bound on the side of the sign |
| Handlers.PathIdOfOverflow | student-planner/server/handlers.go:484 | digits worth more than 2^64 - 1 give MaxInt64, or MinInt64 after a minus, whatever text follows them |
| Handlers.PathIdOfLongJunk | student-planner/server/handlers.go:484 | the segment "99999999999999999999x" reads as MaxInt64, not 0 |
| Handlers.PathIdOfJunk | student-planner/server/handlers.go:484 | a non-numeral whose leading digits fit 2^64 - 1 reads as 0 |
| Handlers.DigitsValueAtLeastLead | student-planner/server/handlers.go:484 | a digit string is worth at least its leading digit in its leading place |
| Handlers.Weekday | student-planner/server/handlers.go:617 | a weekday number in 0..6 |
| Handlers.IsoWeekday | student-planner/server/handlers.go:617-621 | Sunday becomes 7, the other days keep their number |
| Handlers.WeekWindowShape | student-planner/server/handlers.go:617-624 | the window spans 7 days from a Monday to a Sunday and contains today |
| Handlers.WeekWindowIsCalendarWeek | student-planner/server/handlers.go:617-624 | a day is in the window exactly when it is in today's Monday-to-Sunday week |
| Handlers.Bucket | student-planner/server/handlers.go:641-666 | a day's list has no more entries than there are rows |
| Handlers.BucketNonEmpty | student-planner/server/handlers.go:641-666 | a day has entries exactly when some scanned row carries that date |
| Handlers.GroupByDate | student-planner/server/handlers.go:641-666 | a date is a key exactly when a scanned row carries it, and its list holds those rows' entries in query order; failed scans are dropped |
| Handlers.Upcoming | student-planner/server/handlers.go:566-570 | only the user's rows dated today or later |
| Handlers.UpcomingMembership | student-planner/server/handlers.go:566-570 | a row is selected exactly when it is the user's and dated today or later |
| Handlers.SortBySlotFacts | student-planner/server/handlers.go:571 | the order is by date then start time, and it is a permutation of the rows |
| Handlers.FirstBySlot | student-planner/server/handlers.go:571-572 | the first k rows are in slot order, drawn from the rows, and come no later than any row left out |
| Handlers.UpcomingScheduleFacts | student-planner/server/handlers.go:566-573 | exactly min(10, qualifying rows) rows, in slot order, all the user's and dated today or later, from the table, none later than a qualifying row left out |
| Handlers.WeekRows | student-planner/server/handlers.go:626-632 | only the user's rows inside the week window, in table order |
| Handlers.WeekRowsMembership | student-planner/server/handlers.go:626-632 | a row is selected exactly when it is the user's and inside the window |
| Handlers.Scan | student-planner/server/handlers.go:594-601 | a row scans exactly when neither nullable column (subject, location) is NULL, and then its columns come back unchanged |
| Handlers.Scanned | student-planner/server/handlers.go:594-603 | skipping failed scans never adds rows |
| Handlers.ScannedMembership | student-planner/server/handlers.go:594-603 | a row is in the result exactly when some selected row scans to it |
| Handlers.ScannedAll | student-planner/server/handlers.go:594-603 | when every selected row scans, the result has one scanned row per selected row, in order |
| HandlerTables.RequireUser | student-planner/server/handlers.go:477-481 | 401 with its error text exactly when the extracted id is 0; otherwise the positive id |
| HandlerTables.CheckAuth | student-planner/server/handlers.go:732-739 | always "authenticated", with 0 exactly when the data handlers would answer 401 |
| HandlerTables.CountOwnedZero | student-planner/server/handlers.go:507-511 | no row is affected exactly when no row has both the id and the user id |
| HandlerTables.RemoveOwnedFacts | student-planner/server/handlers.go:542 | a row survives the DELETE iff its key differs, and the table shrinks by the affected count |
| HandlerTables.RemoveNothing | student-planner/server/handlers.go:549-552 | a DELETE that affects nothing leaves the table as it was |
| HandlerTables.FindOwned | student-planner/server/handlers.go:513-520 | the re-select finds a row with both the id and the user id, and finds none only when no row has them |
| HandlerTables.UpdatedRowFound | student-planner/server/handlers.go:495-526 | after an UPDATE that affected a row, the re-select finds a row with the new status |
| HandlerTables.SetCompletedIdempotent | student-planner/server/handlers.go:495-500 | setting the same status twice equals setting it once |
| HandlerTables.Database.ExecSetCompleted | student-planner/server/handlers.go:495-507 | the tasks table becomes the toggled table and the affected count is the number of matching rows; events unchanged |
| HandlerTables.Database.ExecDeleteTask | student-planner/server/handlers.go:542-549 | the matching tasks are removed and counted; events unchanged |
| HandlerTables.Database.ExecReviseEvent | student-planner/server/handlers.go:273-288 | the matching events get the eight new columns and are counted; tasks unchanged |
| HandlerTables.Database.ExecDeleteEvent | student-planner/server/handlers.go:308-315 | the matching events are removed and counted; tasks unchanged |
| HandlerTables.Database.ToggleTaskCompletion | student-planner/server/handlers.go:476-530 | 401 before anything else, 400 for an undecodable body, 404 when no task has both ids, otherwise the re-read task with the new status; only the caller's rows can change |
| HandlerTables.Database.DeleteTask | student-planner/server/handlers.go:532-557 | 401, or the caller's task with that id removed and 404 when there was none |
| HandlerTables.Database.UpdateEvent | student-planner/server/handlers.go:247-296 | 401, 400, or the caller's event with that id revised and 404 when there was none; other users' events never change |
| HandlerTables.Database.DeleteEvent | student-planner/server/handlers.go:298-323 | 401, or the caller's event with that id removed and 404 when there was none |
| HandlerTables.Database.GetSchedule | student-planner/server/handlers.go:559-608 | 401, or the rows of the LIMIT 10 selection that scan, in query order; a row with a NULL subject or location is skipped |
| HandlerTables.Database.GetWeekSchedule | student-planner/server/handlers.go:610-670 | 401, or a map whose keys are exactly the dates of the caller's events inside the week whose rows scan, each with that day's scanned rows in query order |
| HandlerTables.WeekScanHasDate | student-planner/server/handlers.go:623-653 | a date occurs among the week's scanned rows exactly when the caller has an event that day inside the window whose row scans |
| HandlerTables.WeekScanDateFromTable | student-planner/server/handlers.go:623-653 | a date among the scanned rows comes from a scannable event of the caller inside the window |
| HandlerTables.WeekScanDateOfEvent | student-planner/server/handlers.go:623-653 | a scannable event of the caller inside the window puts its date among the scanned rows |
| EndToEnd.LoginIdReachesServer | student-planner/client/src/services/api.js:38-40 | after a login with a positive 64-bit numeric id, every request carries its numeral and the server reads exactly that id |

## Left out

- Floating point.
  - Durations are integer tenths, so `parseFloat` on the form and `float64` sums are exact in the model.
  - `Math.round((c / t) * 100)` is computed exactly as round-half-up of 100·c/t. In doubles it can differ on a
    tie: `0.145 * 100` is 14.499…, so 29 of 200 rounds to 14 in the browser and to 15 here.
- Statistics.RoundPercent and Statistics.CompletionRate: exact rationals; the double rounding above is not modelled.
- JSON: arrays, fractional and exponent numbers, surrogate-pair escapes, and numbers beyond what the client stores
  are not in `Json`. `JSON.stringify` dropping `undefined` members is modelled by `Defined`.
- Object key order: `Object.keys` lists integer-like keys first. The counter models plain insertion order, so a
  numeric event type would be placed differently. Inherited prototype keys (e.g. `labels["constructor"]`) are not
  modelled.
- Timers: the 3-second clearing of the schedule message (and the hiding of the form) is not modelled.
- Concurrency: `Promise.all` is modelled as "both bodies, or a failure". The async retry is two steps:
  `RetryConnection`, then `CheckServerConnection` with the probe's outcome.
- Effects: `window.location` is an output (`redirect`). `window.confirm` and `Date.now()` are inputs. The refetch
  after a create or delete is an output flag (`refetch`), not a nested call. Console logging is dropped.
- Rendering: JSX, `formatDate` / `toLocaleDateString`, the header and the form-only components are not part of
  this model.
- `handleInputChange` on both pages: it is a field update with no logic worth a contract.
- Dashboard.SortNewestFirst: `created_at` is an integer timestamp. An unparsable date, which makes the
  comparator return `NaN`, is not modelled.
- The server handlers not named here are not part of this model:
  - `Register` and `Login`, with bcrypt;
  - `GetEvents`, `CreateEvent`, `GetTasks`, `CreateTask`, `UpdateTask` and `GetStats`.
  - Their 401 guard is the one `RequireUser` models.
- HandlerTables.Database.UpdateEvent, DeleteEvent, ToggleTaskCompletion, DeleteTask, GetSchedule and
  GetWeekSchedule: the 500 answer of a failing query or statement is not modelled, since the model's tables never
  fail.
  - `id` and `user_id` are 32-bit `INTEGER` columns (student-planner/server/database.go:53-54, 68-69).
  - A path id or user id outside the int32 range therefore makes the statement fail in PostgreSQL. That covers
    `PathId`'s clamped `MaxInt64`/`MinInt64` and any user id above 2^31-1.
  - The source then answers 500 (student-planner/server/handlers.go:284, 311, 503, 545, 577, 636).
  - The model answers 404 for the four updates and deletes, and an empty schedule for the two reads.
- HandlerTables.Database.ToggleTaskCompletion: the "updated but not retrieved" 500 is dropped.
  - The re-select scans the nullable `description`, `priority` and `due_date` into Go strings, so a NULL in any
    of them fails it.
  - Another request's DELETE between the UPDATE and the re-select fails it too.
  - The model assumes no NULL in those columns and no concurrent writer. Under that assumption the re-select
    finds the row (`UpdatedRowFound`).
- Row scans in `GetSchedule` and `GetWeekSchedule`: only NULL `subject` or `location` is modelled as a failure
  (`Handlers.Scan`). The other selected columns are NOT NULL.
- HandlerTables.Database.ToggleTaskCompletion: a body that decodes but lacks `is_completed` is the caller's
  `Some(false)` (Go's zero value). The JSON decoder itself is not modelled.
- Handlers.SortBySlotFacts: rows with equal date and start time keep table order. PostgreSQL leaves their order
  unspecified.
- App.Route: React Router also percent-decodes each path segment before matching (so "/%6Cogin" is "/login").
  That decoding is not modelled.
- Dates on the server are day numbers. The `DATE`/`TIME` text formats and `time.Format` are not modelled, nor are
  time zones.
- App.Restore: a missing or empty `token` or `user` leaves storage as it is. Both keys are removed only when the
  stored user fails to parse (student-planner/client/src/App.js:40-56). The model follows that code.
