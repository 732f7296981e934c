/**
 * `scheduleCollector` of app.js: the fold that turns the raw schedule rows of
 * one request into the timetable sent to the client.
 *
 * The source reduces with an async callback. Every callback first awaits the
 * accumulator of the previous one, so the rows are enriched strictly one
 * after another, and once a step throws every later step rethrows the same
 * error without issuing its lookups. That is the left fold `Fold` below, in
 * which the first failure is the result.
 */
module Timetable {
  import opened Wrappers
  import opened Collaborators

  /** The record one step appends to the timetable. */
  datatype Lesson = Lesson(
    pair: string,
    pairDate: string,
    pairType: string,
    pairFirst: bool,
    disciplines: string,
    room: string,
    teacher: string,
    id: nat)

  /** The lookup a step failed on. */
  datatype Dimension = Discipline | Room | Teacher

  /**
   * Why a step throws: the lookup's query rejected, or it returned no row, so
   * that reading `disc`, `room` or `teacher` of the missing first row raises a
   * TypeError.
   */
  datatype AssemblyError =
    | QueryFailed(dimension: Dimension, cause: QueryError)
    | MissingRow(dimension: Dimension)

  /** Whether none of the row's three lookup queries rejects. */
  predicate Answered(repo: Repository, row: ScheduleRow)
  {
    repo.disciplines(row.discId).Success? && repo.rooms(row.roomId).Success? && repo.teachers(row.teacherId).Success?
  }

  /** Whether each of the row's three lookups answers with at least one row. */
  predicate Resolvable(repo: Repository, row: ScheduleRow)
  {
    && Answered(repo, row)
    && |repo.disciplines(row.discId).value| > 0
    && |repo.rooms(row.roomId).value| > 0
    && |repo.teachers(row.teacherId).value| > 0
  }

  /**
   * One call of the reduce callback, given that the accumulator resolved. The
   * three queries are awaited in turn, so a rejected discipline query is
   * reported before the room query is issued, and so on. Then the record is
   * built; its fields are evaluated in order, so a missing discipline is
   * reported before a missing room and a missing room before a missing
   * teacher. `prev_date` is the previous input row's date, or `''` at index 0.
   */
  function Enrich(repo: Repository, lib: Library, arr: seq<ScheduleRow>, index: nat): (r: Result<Lesson, AssemblyError>)
    requires index < |arr|
    ensures r.Success? <==> Resolvable(repo, arr[index])
    ensures var d := repo.disciplines(arr[index].discId);
      d.Failure? ==> r == Failure(QueryFailed(Discipline, d.error))
    ensures var d, rm := repo.disciplines(arr[index].discId), repo.rooms(arr[index].roomId);
      d.Success? && rm.Failure? ==> r == Failure(QueryFailed(Room, rm.error))
    ensures var d, rm, t := repo.disciplines(arr[index].discId), repo.rooms(arr[index].roomId), repo.teachers(arr[index].teacherId);
      d.Success? && rm.Success? && t.Failure? ==> r == Failure(QueryFailed(Teacher, t.error))
    ensures r == Failure(MissingRow(Discipline)) <==>
      Answered(repo, arr[index]) && |repo.disciplines(arr[index].discId).value| == 0
    ensures r == Failure(MissingRow(Room)) <==>
      Answered(repo, arr[index]) && |repo.disciplines(arr[index].discId).value| > 0
      && |repo.rooms(arr[index].roomId).value| == 0
    ensures r == Failure(MissingRow(Teacher)) <==>
      Answered(repo, arr[index]) && |repo.disciplines(arr[index].discId).value| > 0
      && |repo.rooms(arr[index].roomId).value| > 0 && |repo.teachers(arr[index].teacherId).value| == 0
    ensures r.Success? ==> r.value.id == index
    ensures r.Success? && index == 0 ==> (r.value.pairFirst <==> lib.dateString(arr[0].pairDate) != "")
    ensures r.Success? && index > 0 ==>
      (r.value.pairFirst <==> lib.dateString(arr[index].pairDate) != lib.dateString(arr[index - 1].pairDate))
  {
    var item := arr[index];
    var prevDate := if index > 0 then lib.dateString(arr[index - 1].pairDate) else "";
    var pairFirst := lib.dateString(item.pairDate) != prevDate;
    match repo.disciplines(item.discId)
    case Failure(e) => Failure(QueryFailed(Discipline, e))
    case Success(disciplines) =>
      match repo.rooms(item.roomId)
      case Failure(e) => Failure(QueryFailed(Room, e))
      case Success(room) =>
        match repo.teachers(item.teacherId)
        case Failure(e) => Failure(QueryFailed(Teacher, e))
        case Success(teacher) =>
          if |disciplines| == 0 then Failure(MissingRow(Discipline))
          else if |room| == 0 then Failure(MissingRow(Room))
          else if |teacher| == 0 then Failure(MissingRow(Teacher))
          else
            Success(Lesson(
              pair := lib.pairCollector(item.pair),
              pairDate := lib.format(item.pairDate, IsoDateTime),
              pairType := item.pairType,
              pairFirst := pairFirst,
              disciplines := disciplines[0],
              room := room[0],
              teacher := teacher[0],
              id := index))
  }

  /**
   * The accumulator after the first `n` steps of the reduce over `arr`. It
   * succeeds exactly when each of those rows resolves, and then holds, at
   * every position, the record that row's own step builds; otherwise it is the
   * error of the first row that does not resolve.
   */
  function Fold(repo: Repository, lib: Library, arr: seq<ScheduleRow>, n: nat): (r: Result<seq<Lesson>, AssemblyError>)
    requires n <= |arr|
    ensures r.Success? <==> forall i :: 0 <= i < n ==> Resolvable(repo, arr[i])
    ensures r.Success? ==> |r.value| == n
    ensures r.Success? ==> forall i :: 0 <= i < n ==> Enrich(repo, lib, arr, i) == Success(r.value[i])
    ensures r.Failure? ==>
      exists k :: 0 <= k < n && Enrich(repo, lib, arr, k) == Failure(r.error)
        && forall j :: 0 <= j < k ==> Resolvable(repo, arr[j])
    decreases n
  {
    if n == 0 then Success([])
    else
      match Fold(repo, lib, arr, n - 1)
      case Failure(e) => Failure(e)
      case Success(acc) =>
        match Enrich(repo, lib, arr, n - 1)
        case Failure(e) => Failure(e)
        case Success(lesson) => Success(acc + [lesson])
  }

  /**
   * `scheduleCollector(schedule)`: the reduce over the whole input, starting
   * from the empty timetable. On success the timetable has one record per
   * row, in input order, record `i` carrying `id == i`.
   */
  function ScheduleCollector(repo: Repository, lib: Library, schedule: seq<ScheduleRow>): (r: Result<seq<Lesson>, AssemblyError>)
    ensures schedule == [] ==> r == Success([])
    ensures r.Success? <==> forall i :: 0 <= i < |schedule| ==> Resolvable(repo, schedule[i])
    ensures r.Success? ==> |r.value| == |schedule|
    ensures r.Success? ==> forall i :: 0 <= i < |schedule| ==> r.value[i].id == i
    ensures r.Success? ==> forall i :: 0 <= i < |schedule| ==> Enrich(repo, lib, schedule, i) == Success(r.value[i])
  {
    Fold(repo, lib, schedule, |schedule|)
  }

  /** Every field of record `i` comes from input row `i` and its three lookups. */
  lemma LessonFields(repo: Repository, lib: Library, schedule: seq<ScheduleRow>, i: nat)
    requires ScheduleCollector(repo, lib, schedule).Success?
    requires i < |schedule|
    ensures var row, lesson := schedule[i], ScheduleCollector(repo, lib, schedule).value[i];
      && lesson.pair == lib.pairCollector(row.pair)
      && lesson.pairDate == lib.format(row.pairDate, IsoDateTime)
      && lesson.pairType == row.pairType
      && Resolvable(repo, row)
      && lesson.disciplines == repo.disciplines(row.discId).value[0]
      && lesson.room == repo.rooms(row.roomId).value[0]
      && lesson.teacher == repo.teachers(row.teacherId).value[0]
      && lesson.id == i
  {
  }

  /**
   * With date strings never empty, `pair_first` marks exactly the rows whose
   * date string differs from that of the row before them in the input: always
   * the first row, and a later row when its `toString` differs from its
   * predecessor's. That is a change of calendar day when every `pair_date` has
   * the same time of day, as a DATE column read at local midnight has.
   */
  lemma PairFirstMarksDateChanges(repo: Repository, lib: Library, schedule: seq<ScheduleRow>)
    requires DateStringsNonEmpty(lib)
    requires ScheduleCollector(repo, lib, schedule).Success?
    ensures var timetable := ScheduleCollector(repo, lib, schedule).value;
      forall i :: 0 <= i < |schedule| ==>
        (timetable[i].pairFirst <==>
          i == 0 || lib.dateString(schedule[i].pairDate) != lib.dateString(schedule[i - 1].pairDate))
  {
  }

  /** Without the non-empty hypothesis, the first row is flagged exactly when its date string is not empty. */
  lemma PairFirstAtStart(repo: Repository, lib: Library, schedule: seq<ScheduleRow>)
    requires ScheduleCollector(repo, lib, schedule).Success?
    requires |schedule| > 0
    ensures ScheduleCollector(repo, lib, schedule).value[0].pairFirst <==> lib.dateString(schedule[0].pairDate) != ""
  {
  }

  /** Three rows whose first two share a date string and the third has another are flagged true, false, true. */
  lemma PairFirstThreeRows(repo: Repository, lib: Library, schedule: seq<ScheduleRow>)
    requires DateStringsNonEmpty(lib)
    requires |schedule| == 3
    requires lib.dateString(schedule[0].pairDate) == lib.dateString(schedule[1].pairDate)
    requires lib.dateString(schedule[1].pairDate) != lib.dateString(schedule[2].pairDate)
    requires ScheduleCollector(repo, lib, schedule).Success?
    ensures var t := ScheduleCollector(repo, lib, schedule).value;
      [t[0].pairFirst, t[1].pairFirst, t[2].pairFirst] == [true, false, true]
  {
  }

  /**
   * The error is fixed by the first row that does not resolve: the rows before
   * it are enriched, and it fails with its own error, the first rejected query
   * or else the first missing row.
   */
  lemma FirstUnresolvedRowDecides(repo: Repository, lib: Library, schedule: seq<ScheduleRow>, k: nat)
    requires k < |schedule|
    requires forall j :: 0 <= j < k ==> Resolvable(repo, schedule[j])
    requires !Resolvable(repo, schedule[k])
    ensures ScheduleCollector(repo, lib, schedule) == Failure(Enrich(repo, lib, schedule, k).error)
  {
  }

  /**
   * Rows after position `k` do not influence the first `k` steps: folding the
   * first `n <= k` rows of `arr` gives what folding them inside `arr[..k]` gives.
   */
  lemma {:induction false} FoldPrefix(repo: Repository, lib: Library, arr: seq<ScheduleRow>, k: nat, n: nat)
    requires n <= k <= |arr|
    ensures Fold(repo, lib, arr[..k], n) == Fold(repo, lib, arr, n)
    decreases n
  {
    if n > 0 {
      FoldPrefix(repo, lib, arr, k, n - 1);
      assert arr[..k][n - 1] == arr[n - 1];
      assert n - 1 > 0 ==> arr[..k][n - 2] == arr[n - 2];
      assert Enrich(repo, lib, arr[..k], n - 1) == Enrich(repo, lib, arr, n - 1);
    }
  }

  /**
   * Each step only appends: the timetable of the first `k` rows is the
   * accumulator after `k` steps over the whole input, and when the whole input
   * assembles, that is the first `k` records of the whole timetable.
   */
  lemma TimetablePrefix(repo: Repository, lib: Library, schedule: seq<ScheduleRow>, k: nat)
    requires k <= |schedule|
    ensures ScheduleCollector(repo, lib, schedule[..k]) == Fold(repo, lib, schedule, k)
    ensures ScheduleCollector(repo, lib, schedule).Success? ==>
      ScheduleCollector(repo, lib, schedule[..k]) == Success(ScheduleCollector(repo, lib, schedule).value[..k])
  {
    FoldPrefix(repo, lib, schedule, k, k);
    var whole := ScheduleCollector(repo, lib, schedule);
    if whole.Success? {
      var part := Fold(repo, lib, schedule, k);
      assert part.Success?;
      forall i | 0 <= i < k
        ensures part.value[i] == whole.value[..k][i]
      {
        assert Enrich(repo, lib, schedule, i) == Success(part.value[i]);
        assert Enrich(repo, lib, schedule, i) == Success(whole.value[i]);
      }
      assert part.value == whole.value[..k];
    }
  }
}
