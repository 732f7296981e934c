# Timetable assembly of the university schedule server

This project models the part of the schedule server (an Express application over
a MySQL database of faculties, courses, groups and lessons) that does more than
forward a query. It covers two folds in `app.js`:

- `scheduleCollector` turns the raw schedule rows of one request into the
  timetable sent to the client. For each row it looks up the discipline, room
  and teacher names by id. It sets the "first pair of the day" flag by comparing
  the row's date with the date of the row before it in the input. It formats the
  date and appends a record whose `id` is the row's position.
- The `/schedule-dates/:UID` handler maps every available-date row to its date
  formatted as `YYYY-MM-DD`, keeping the order.

Everything these folds call but do not define is a parameter of the model:

- `Collaborators.Repository` holds the three id lookups of the database layer.
  Each gives the name column of every row its query returned, possibly none.
- `Collaborators.Library` holds `Date.prototype.toString`, `format` of
  `@formkit/tempo` and `pairCollector` of `helpers.js`.
- A JavaScript `Date` is the opaque type `Collaborators.Date`.

The source's reduce callback is `async`, and each call first awaits the
accumulator of the call before it. So the rows are enriched one after another,
and once a step throws, every later step rethrows that error without issuing its
lookups. `Timetable.Fold` is that left fold over a `Result`: the first failing
row decides the outcome. A step fails in one of two ways:

- One of its three lookup queries rejects. The queries are awaited in turn
  (discipline, room, teacher), so the first rejection is the step's error and
  the later queries of that row are never issued. The model returns
  `Failure(QueryFailed(d, cause))`.
- A lookup answers with no rows. The empty result is indexed with `[0][0]` and
  the missing row's `disc`, `room` or `teacher` property is read, which throws a
  `TypeError`. The model returns `Failure(MissingRow(d))`. The record's fields
  are evaluated in source order, so a missing discipline is reported before a
  missing room, and a missing room before a missing teacher.

Further facts about the code that the model keeps:

- The source has no dedicated error kind. A missing dimension row surfaces only
  as the `TypeError` above, which rejects the whole timetable.
- Each handler fixes its own format string: `YYYY-MM-DDTHH:mm:ssZ` in the
  timetable, `YYYY-MM-DD` in the dates listing.
- `item.pair` is passed to `pairCollector` unchecked. The code of
  `pairCollector` is not part of this model.
- The first row's flag is `toString() !== ''`, because `prev_date` falls back to
  `''`. So it is true exactly when that string is not empty. It is proved true
  under the hypothesis `DateStringsNonEmpty`, which JavaScript's
  `Date.prototype.toString` satisfies.
- `pair_first` compares whole `toString` results, which include the time of day
  and the zone. It marks a change of calendar day only when every `pair_date`
  has the same time of day, as a DATE column read at local midnight has.
- The dates listing keeps every row the query returns, in order. Any removal of
  duplicates or sorting is done by the SQL of `getAvailableDates`, which is not
  part of this model.

## Model

| member | source | states |
|---|---|---|
| `ScheduleDates.AvailableDates` | app.js:127-129 | one formatted date per input row: the same length as the input, and entry `i` is `format(dates[i].pair_date, 'YYYY-MM-DD')`, so order is kept |
| `ScheduleDates.AvailableDatesAppend` | app.js:127-129 | the listing of two runs of rows in sequence is the listing of the first run followed by that of the second |
| `Timetable.Enrich` | app.js:191-211 | one step succeeds exactly when all three lookup queries answer with at least one row; otherwise it fails with the first rejected query in the order discipline, room, teacher, or, when all answered, with the first empty lookup in that order; on success `id == index`; `pair_first` at index 0 holds exactly when the date string is not `''`, and at `index > 0` exactly when the row's date string differs from the previous input row's |
| `Timetable.Fold` | app.js:190-212 | after `n` steps the accumulator succeeds exactly when the first `n` rows all resolve; it then has length `n` and position `i` holds the record step `i` builds from row `i`; otherwise it is the error of some row `k` all of whose predecessors resolve |
| `Timetable.ScheduleCollector` | app.js:189-214 | empty input gives the empty timetable; success exactly when every row resolves; on success one record per row, record `i` has `id == i` and is the record built from input row `i` |
| `Timetable.LessonFields` | app.js:199-211 | record `i` carries `pairCollector(row.pair)`, the date formatted as `YYYY-MM-DDTHH:mm:ssZ`, the row's `pair_type` unchanged, and the first name each of the discipline, room and teacher lookups returned |
| `Timetable.PairFirstMarksDateChanges` | app.js:196-197 | with non-empty date strings, `pair_first` is true at index 0 and, for `i > 0`, exactly when input row `i`'s date string differs from input row `i-1`'s |
| `Timetable.PairFirstAtStart` | app.js:196-197 | with no hypothesis on dates, the first record's `pair_first` holds exactly when the first row's date string is not `''` |
| `Timetable.PairFirstThreeRows` | app.js:196-197 | rows whose date strings are A, A, B give the flags `[true, false, true]` |
| `Timetable.FirstUnresolvedRowDecides` | app.js:190-212 | if row `k` is the first row with a rejected query or an empty lookup, the whole assembly fails with row `k`'s own error and no timetable is produced |
| `Timetable.FoldPrefix` | app.js:196-211 | the first `n` steps over `arr[..k]` equal the first `n` steps over `arr` for `n <= k`: later rows never influence earlier records |
| `Timetable.TimetablePrefix` | app.js:190-212 | each step only appends: the timetable of the first `k` rows is the accumulator after `k` steps, and on success it is the first `k` records of the whole timetable |

## Left out

- HTTP plumbing: Express, CORS, Swagger, route registration, the error middleware and `app.listen` (app.js:1-126, app.js:130-187, app.js:216-221).
- Both timetable routes call `.then` on the assembly's promise without a rejection handler. So a failed assembly never reaches the error middleware and no response is sent. This belongs to the HTTP layer and is not modelled.
- database.js: the MySQL pool and the query wrappers. The lookups are parameters, and why a query rejects is an opaque `QueryError`. `getSchedule`, `getCurrentSchedule` and `getAvailableDates` are represented only by the row sequences they return.
- The internals of tempo's `format`, of `pairCollector` and of `Date.prototype.toString`. Each is an arbitrary total function. An exception thrown inside one of them is not modelled.
- A `pair_date` that is `null`, on which `toString()` would throw. The model's rows always carry a date.
- A lookup row that exists but lacks its name column, for which the source would send `undefined`. The model's lookups return names directly.
- Promises and scheduling. The awaits run strictly in sequence, so they are plain sequential evaluation here.
- Merged-group (secondary id) handling. The shown code does not implement it.
