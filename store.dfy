/**
 * The persistence layer of mdb/lecture.go. The MongoDB collection is a map from `_id` to the
 * stored document; what only the server knows (a generated id, a failing connection) arrives as
 * a parameter. The guards and the mapping from result counts to errors are the source's own.
 */
module Store {
  import opened Wrappers
  import opened GoLib
  import opened Model
  import opened Sorting

  /** The errors the layer reports, by cause. */
  datatype DbError =
    | WeekOutOfRange   // "error: week must be between 0 - 4"
    | BadObjectId      // "error converting ObjectID from Hex"
    | NotFound         // "lecture not found", mongo.ErrNoDocuments, "lecture [ .. ] not found"
    | DriverError      // any error the driver or the server returns

  /** The `lecture` collection: each stored document under its `_id`. */
  type Collection = map<ObjectId, Lecture>

  /** The state after a write and the error returned, if any. */
  datatype Written = Written(lectures: Collection, err: Option<DbError>)

  /** An id as the driver stores it: 24 lower-case hexadecimal digits. */
  predicate Canonical(id: ObjectId) {
    IsHex24(id.hex) && ToLower(id.hex) == id.hex
  }

  /** Every document is filed under its own `_id`, which is canonical. */
  ghost predicate WellKeyed(c: Collection) {
    forall id :: id in c ==> c[id].id == id && Canonical(id)
  }

  /** The week guard of InsertLecture: `strconv.Atoi(week)` with its error dropped, in 0..4. */
  predicate WeekInRange(week: string) {
    0 <= Atoi(week) <= 4
  }

  /**
   * InsertLecture. A zero `ID` is omitted from the document (`omitempty`), so the driver
   * generates `newId`; an explicit id already present is a duplicate-key error from the server.
   */
  function InsertOutcome(c: Collection, l: Lecture, newId: ObjectId, fails: bool): (w: Written)
    ensures w.err.None? ==> w.lectures.Keys == c.Keys + {if IsZero(l.id) then newId else l.id}
    ensures w.err.None? ==> var id := if IsZero(l.id) then newId else l.id;
      id !in c && w.lectures == c[id := l.(id := id)]
    ensures w.err.Some? ==> w.lectures == c
  {
    if !WeekInRange(l.week) then Written(c, Some(WeekOutOfRange))
    else if fails then Written(c, Some(DriverError))
    else
      var id := if IsZero(l.id) then newId else l.id;
      if id in c then Written(c, Some(DriverError))
      else Written(c[id := l.(id := id)], None)
  }

  /**
   * UpdateLecture: `UpdateByID(ID, {$set: lecture})`. A zero `ID` in `lecture` is omitted, so
   * every other field is overwritten; a different non-zero one would change the immutable `_id`,
   * which the server refuses. No document matched is "lecture not found".
   */
  function UpdateOutcome(c: Collection, id: ObjectId, l: Lecture, fails: bool): (w: Written)
    ensures w.err.None? ==> id in c && w.lectures == c[id := l.(id := id)]
    ensures w.err.Some? ==> w.lectures == c
  {
    if fails then Written(c, Some(DriverError))
    else if id !in c then Written(c, Some(NotFound))
    else if !IsZero(l.id) && l.id != id then Written(c, Some(DriverError))
    else Written(c[id := l.(id := id)], None)
  }

  /** GetLecture: the hex text is parsed before the collection is asked. */
  function GetOutcome(c: Collection, hex: string, fails: bool): (r: Result<Lecture, DbError>)
    ensures r.Success? ==> (ParseObjectId(hex).Some? && ParseObjectId(hex).value in c
                            && r.value == c[ParseObjectId(hex).value])
    ensures r.Success? <==> ParseObjectId(hex).Some? && !fails && ParseObjectId(hex).value in c
  {
    match ParseObjectId(hex)
    case None => Failure(BadObjectId)
    case Some(id) =>
      if fails then Failure(DriverError)
      else if id !in c then Failure(NotFound)
      else Success(c[id])
  }

  /** DeleteLecture: the same hex guard; a `DeletedCount` of 0 is "not found". */
  function DeleteOutcome(c: Collection, hex: string, fails: bool): (w: Written)
    ensures w.err.None? ==> (ParseObjectId(hex).Some? && ParseObjectId(hex).value in c
                             && w.lectures == c - {ParseObjectId(hex).value})
    ensures w.err.None? <==> ParseObjectId(hex).Some? && !fails && ParseObjectId(hex).value in c
    ensures w.err.Some? ==> w.lectures == c
  {
    match ParseObjectId(hex)
    case None => Written(c, Some(BadObjectId))
    case Some(id) =>
      if fails then Written(c, Some(DriverError))
      else if id !in c then Written(c, Some(NotFound))
      else Written(c - {id}, None)
  }

  /**
   * GetLectures: the documents the server returns for a filter, in the order it returns them
   * (`found`), sorted stably by week and then stably by time.
   */
  method GetLectures(found: seq<Lecture>, fails: bool) returns (r: Result<seq<Lecture>, DbError>)
    ensures r.Failure? <==> fails
    ensures r.Success? ==> r.value == StableSort(found, ByTimeWeek)
    ensures r.Success? ==> multiset(r.value) == multiset(found)
    ensures r.Success? ==> forall i, j :: 0 <= i < j < |r.value| ==>
              r.value[i].time < r.value[j].time
              || (r.value[i].time == r.value[j].time && !StrLess(r.value[j].week, r.value[i].week))
    ensures r.Success? ==> forall p :: Class(r.value, ByTimeWeek, p) == Class(found, ByTimeWeek, p)
  {
    if fails {
      return Failure(DriverError);
    }
    var a := new Lecture[|found|](i requires 0 <= i < |found| => found[i]);
    assert a[..] == found;
    SortStableFunc(a, ByWeek);
    SortStableFunc(a, ByTime);
    TwoPassSort(found);
    SortedByTimeThenWeek(found);
    return Success(a[..]);
  }

  /** What the (time, week) stable sort promises: the same lectures, ordered by time and, at
      equal times, by week; lectures equal in both keep their relative order. */
  lemma SortedByTimeThenWeek(s: seq<Lecture>)
    ensures multiset(StableSort(s, ByTimeWeek)) == multiset(s)
    ensures var r := StableSort(s, ByTimeWeek);
      forall i, j :: 0 <= i < j < |r| ==>
        r[i].time < r[j].time || (r[i].time == r[j].time && !StrLess(r[j].week, r[i].week))
    ensures forall p :: Class(StableSort(s, ByTimeWeek), ByTimeWeek, p) == Class(s, ByTimeWeek, p)
  {
    var r := StableSort(s, ByTimeWeek);
    StableSortPermutes(s, ByTimeWeek);
    forall i, j | 0 <= i < j < |r|
      ensures r[i].time < r[j].time || (r[i].time == r[j].time && !StrLess(r[j].week, r[i].week))
    {
      assert Le(ByTimeWeek, r[i], r[j]);
      StrLessAsymmetric(r[i].week, r[j].week);
    }
    forall p ensures Class(r, ByTimeWeek, p) == Class(s, ByTimeWeek, p) {
      StableSortStable(s, ByTimeWeek, p);
    }
  }

  // ---------------------------------------------------------------------------------------------
  // What the layer guarantees

  /** The insert guard fails exactly when the week reads as a number outside 0..4; a week that
      does not read as a number at all reads as 0 and passes. */
  lemma InsertWeekGuard(c: Collection, l: Lecture, newId: ObjectId, fails: bool)
    ensures InsertOutcome(c, l, newId, fails).err == Some(WeekOutOfRange)
        <==> !(0 <= Atoi(l.week) <= 4)
    ensures !IsDecimal(l.week) ==> InsertOutcome(c, l, newId, fails).err != Some(WeekOutOfRange)
    ensures l.week in Weeks ==> InsertOutcome(c, l, newId, fails).err != Some(WeekOutOfRange)
  {
    if l.week in Weeks {
      WeeksAreSmallNumbers(l.week);
    }
  }

  /** An inserted lecture can be read back under its id. */
  lemma InsertThenGet(c: Collection, l: Lecture, newId: ObjectId)
    requires WellKeyed(c)
    requires IsZero(l.id) && Canonical(newId)
    requires InsertOutcome(c, l, newId, false).err.None?
    ensures WellKeyed(InsertOutcome(c, l, newId, false).lectures)
    ensures GetOutcome(InsertOutcome(c, l, newId, false).lectures, newId.hex, false) == Success(l.(id := newId))
  {
  }

  /** Every write keeps each document filed under its own id. */
  lemma WritesKeepWellKeyed(c: Collection, id: ObjectId, l: Lecture, newId: ObjectId, hex: string, fails: bool)
    requires WellKeyed(c)
    requires Canonical(if IsZero(l.id) then newId else l.id)
    ensures WellKeyed(InsertOutcome(c, l, newId, fails).lectures)
    ensures WellKeyed(UpdateOutcome(c, id, l, fails).lectures)
    ensures WellKeyed(DeleteOutcome(c, hex, fails).lectures)
  {
    InsertKeepsWellKeyed(c, l, newId, fails);
    UpdateKeepsWellKeyed(c, id, l, fails);
    DeleteKeepsWellKeyed(c, hex, fails);
  }

  // The three writes, one at a time.

  lemma InsertKeepsWellKeyed(c: Collection, l: Lecture, newId: ObjectId, fails: bool)
    requires WellKeyed(c)
    requires Canonical(if IsZero(l.id) then newId else l.id)
    ensures WellKeyed(InsertOutcome(c, l, newId, fails).lectures)
  {
  }

  lemma UpdateKeepsWellKeyed(c: Collection, id: ObjectId, l: Lecture, fails: bool)
    requires WellKeyed(c)
    ensures WellKeyed(UpdateOutcome(c, id, l, fails).lectures)
  {
  }

  lemma DeleteKeepsWellKeyed(c: Collection, hex: string, fails: bool)
    requires WellKeyed(c)
    ensures WellKeyed(DeleteOutcome(c, hex, fails).lectures)
  {
  }

  /** "lecture not found" from UpdateLecture means exactly: the call went through and no document
      has the id. */
  lemma UpdateNotFound(c: Collection, id: ObjectId, l: Lecture, fails: bool)
    ensures UpdateOutcome(c, id, l, fails).err == Some(NotFound) <==> !fails && id !in c
  {
  }

  /** After an update the document reads back with the new fields and its old id. */
  lemma UpdateThenGet(c: Collection, id: ObjectId, l: Lecture)
    requires Canonical(id)
    requires UpdateOutcome(c, id, l, false).err.None?
    ensures GetOutcome(UpdateOutcome(c, id, l, false).lectures, id.hex, false) == Success(l.(id := id))
  {
  }

  /** Text that is not 24 hexadecimal digits is refused before the collection is touched, whatever
      the connection would have done. */
  lemma IdGuards(c: Collection, hex: string, fails: bool)
    requires !IsHex24(hex)
    ensures GetOutcome(c, hex, fails) == Failure(BadObjectId)
    ensures DeleteOutcome(c, hex, fails) == Written(c, Some(BadObjectId))
  {
  }

  /** DeleteLecture reports "not found" exactly when the id parses, the call goes through and no
      document has it; a deleted lecture is gone. */
  lemma DeleteNotFound(c: Collection, hex: string, fails: bool)
    ensures DeleteOutcome(c, hex, fails).err == Some(NotFound)
        <==> ParseObjectId(hex).Some? && !fails && ParseObjectId(hex).value !in c
    ensures DeleteOutcome(c, hex, fails).err.None?
        ==> GetOutcome(DeleteOutcome(c, hex, fails).lectures, hex, false) == Failure(NotFound)
  {
  }

  // ---------------------------------------------------------------------------------------------
  // The database handle

  /** A call made on the handle, with its arguments. */
  datatype Call =
    | InsertCall(lecture: Lecture)
    | UpdateCall(id: ObjectId, lecture: Lecture)
    | GetCall(hex: string)
    | DeleteCall(hex: string)

  /** `mdb.Db`: the collection, and the calls made to it so far. */
  class Db {
    var lectures: Collection
    ghost var calls: seq<Call>

    constructor (initial: Collection)
      ensures lectures == initial && calls == []
    {
      lectures := initial;
      calls := [];
    }

    method InsertLecture(l: Lecture, newId: ObjectId, fails: bool) returns (err: Option<DbError>)
      modifies this
      ensures Written(lectures, err) == InsertOutcome(old(lectures), l, newId, fails)
      ensures calls == old(calls) + [InsertCall(l)]
    {
      var w := InsertOutcome(lectures, l, newId, fails);
      lectures, err := w.lectures, w.err;
      calls := calls + [InsertCall(l)];
    }

    method UpdateLecture(id: ObjectId, l: Lecture, fails: bool) returns (err: Option<DbError>)
      modifies this
      ensures Written(lectures, err) == UpdateOutcome(old(lectures), id, l, fails)
      ensures calls == old(calls) + [UpdateCall(id, l)]
    {
      var w := UpdateOutcome(lectures, id, l, fails);
      lectures, err := w.lectures, w.err;
      calls := calls + [UpdateCall(id, l)];
    }

    method GetLecture(hex: string, fails: bool) returns (r: Result<Lecture, DbError>)
      modifies this`calls
      ensures r == GetOutcome(lectures, hex, fails)
      ensures calls == old(calls) + [GetCall(hex)]
    {
      r := GetOutcome(lectures, hex, fails);
      calls := calls + [GetCall(hex)];
    }

    method DeleteLecture(hex: string, fails: bool) returns (err: Option<DbError>)
      modifies this
      ensures Written(lectures, err) == DeleteOutcome(old(lectures), hex, fails)
      ensures calls == old(calls) + [DeleteCall(hex)]
    {
      var w := DeleteOutcome(lectures, hex, fails);
      lectures, err := w.lectures, w.err;
      calls := calls + [DeleteCall(hex)];
    }
  }
}
