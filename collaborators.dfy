/**
 * What app.js uses but does not define: the rows the MySQL queries return,
 * the id lookups of database.js, `format` of @formkit/tempo, `pairCollector`
 * of helpers.js and `Date.prototype.toString`. Each collaborator is a
 * function-typed field of a datatype that the model is given as a parameter,
 * so nothing is assumed about it beyond its type.
 */
module Collaborators {
  import opened Wrappers

  /** A JavaScript Date, as the MySQL driver produces for a `pair_date` column. */
  type Date(!new)

  /** Why a query's promise rejected (a lost connection, a driver error, ...). */
  type QueryError(==)

  /** One row of the result set of getSchedule or getCurrentSchedule. */
  datatype ScheduleRow = ScheduleRow(
    pair: int,          // lesson-period number
    pairDate: Date,
    pairType: string,
    discId: int,
    roomId: int,
    teacherId: int)

  /** One row of the result set of getAvailableDates. */
  datatype DateRow = DateRow(pairDate: Date)

  /**
   * The three lookups by id. A query either rejects with a `QueryError` or
   * gives the name column (`disc`, `room`, `teacher`) of every row it
   * returned, in result-set order; an id with no matching row gives the empty
   * sequence.
   */
  datatype Repository = Repository(
    disciplines: int -> Result<seq<string>, QueryError>,
    rooms: int -> Result<seq<string>, QueryError>,
    teachers: int -> Result<seq<string>, QueryError>)

  /** Library code the assembler calls: `toString` on a Date, tempo's `format`, and `pairCollector`. */
  datatype Library = Library(
    dateString: Date -> string,
    format: (Date, string) -> string,
    pairCollector: int -> string)

  /** The format string the timetable uses for `pair_date`. */
  const IsoDateTime: string := "YYYY-MM-DDTHH:mm:ssZ"

  /** The format string the available-dates listing uses. */
  const DateOnly: string := "YYYY-MM-DD"

  /** `Date.prototype.toString` never yields the empty string (an invalid date prints "Invalid Date"). */
  ghost predicate DateStringsNonEmpty(lib: Library)
  {
    forall d :: lib.dateString(d) != ""
  }
}
