/**
 * The attendance table and the check-then-insert rule of `register_attendance`:
 * one record per student per calendar day. The clock is not modelled; the
 * caller supplies the day (`YYYY-MM-DD`) and the full timestamp as strings.
 */
module Ledger {

  /** One row of the attendance table. The auto-increment id is the row's position. */
  datatype Record = Record(studentId: string, dateStr: string, timestamp: string)

  /** Whether `r` is the record of `studentId` on day `dateStr`. */
  predicate IsFor(r: Record, studentId: string, dateStr: string)
  {
    r.studentId == studentId && r.dateStr == dateStr
  }

  /** What the lookup before the insert finds: some record of that student on that day. */
  predicate HasRecord(rs: seq<Record>, studentId: string, dateStr: string)
  {
    exists i :: 0 <= i < |rs| && IsFor(rs[i], studentId, dateStr)
  }

  /** The per-day rule: no two records share a (student, day) pair. */
  ghost predicate Unique(rs: seq<Record>)
  {
    forall i, j :: 0 <= i < j < |rs| ==> !IsFor(rs[j], rs[i].studentId, rs[i].dateStr)
  }

  /** The table after one registration of `studentId` on `dateStr` at `timestamp`. */
  function Registered(rs: seq<Record>, studentId: string, dateStr: string, timestamp: string): seq<Record>
  {
    if HasRecord(rs, studentId, dateStr) then rs else rs + [Record(studentId, dateStr, timestamp)]
  }

  /** The number of records of `studentId` on day `dateStr`. */
  function PairCount(rs: seq<Record>, studentId: string, dateStr: string): nat
  {
    if rs == [] then 0
    else PairCount(rs[..|rs| - 1], studentId, dateStr) + (if IsFor(rs[|rs| - 1], studentId, dateStr) then 1 else 0)
  }

  /** The records of one student, in table order. */
  function RecordsOf(rs: seq<Record>, studentId: string): seq<Record>
  {
    if rs == [] then []
    else RecordsOf(rs[..|rs| - 1], studentId) + (if rs[|rs| - 1].studentId == studentId then [rs[|rs| - 1]] else [])
  }

  lemma PairCountAppend(rs: seq<Record>, r: Record, studentId: string, dateStr: string)
    ensures PairCount(rs + [r], studentId, dateStr)
         == PairCount(rs, studentId, dateStr) + (if IsFor(r, studentId, dateStr) then 1 else 0)
  {
  }

  lemma RecordsOfAppend(rs: seq<Record>, r: Record, studentId: string)
    ensures RecordsOf(rs + [r], studentId)
         == RecordsOf(rs, studentId) + (if r.studentId == studentId then [r] else [])
  {
  }

  /** The count is zero exactly when the lookup finds nothing. */
  lemma {:induction false} PairCountZero(rs: seq<Record>, studentId: string, dateStr: string)
    ensures PairCount(rs, studentId, dateStr) == 0 <==> !HasRecord(rs, studentId, dateStr)
  {
    if rs != [] {
      var init := rs[..|rs| - 1];
      PairCountZero(init, studentId, dateStr);
      assert rs == init + [rs[|rs| - 1]];
      if HasRecord(init, studentId, dateStr) {
        var i :| 0 <= i < |init| && IsFor(init[i], studentId, dateStr);
        assert IsFor(rs[i], studentId, dateStr);
      }
      if HasRecord(rs, studentId, dateStr) && !IsFor(rs[|rs| - 1], studentId, dateStr) {
        var i :| 0 <= i < |rs| && IsFor(rs[i], studentId, dateStr);
        assert IsFor(init[i], studentId, dateStr);
      }
    }
  }

  /** Under the per-day rule each (student, day) pair has at most one record. */
  lemma {:induction false} UniqueAtMostOne(rs: seq<Record>, studentId: string, dateStr: string)
    requires Unique(rs)
    ensures PairCount(rs, studentId, dateStr) <= 1
  {
    if rs != [] {
      var init := rs[..|rs| - 1];
      var last := rs[|rs| - 1];
      assert Unique(init);
      UniqueAtMostOne(init, studentId, dateStr);
      if IsFor(last, studentId, dateStr) {
        assert !HasRecord(init, studentId, dateStr);
        PairCountZero(init, studentId, dateStr);
      }
    }
  }

  /**
   * One registration: when the lookup finds a record the table is unchanged;
   * otherwise exactly one record with the given id, day and timestamp is
   * appended. The existing rows are never changed or removed.
   */
  lemma RegisteredEffect(rs: seq<Record>, studentId: string, dateStr: string, timestamp: string)
    ensures HasRecord(rs, studentId, dateStr) ==> Registered(rs, studentId, dateStr, timestamp) == rs
    ensures !HasRecord(rs, studentId, dateStr) ==>
              Registered(rs, studentId, dateStr, timestamp) == rs + [Record(studentId, dateStr, timestamp)]
    ensures HasRecord(Registered(rs, studentId, dateStr, timestamp), studentId, dateStr)
    ensures rs <= Registered(rs, studentId, dateStr, timestamp)
  {
    if !HasRecord(rs, studentId, dateStr) {
      var rs' := rs + [Record(studentId, dateStr, timestamp)];
      assert IsFor(rs'[|rs|], studentId, dateStr);
    }
  }

  /** Appending to a table keeps every record the lookup found. */
  lemma HasRecordExtends(rs: seq<Record>, rs': seq<Record>, studentId: string, dateStr: string)
    requires rs <= rs' && HasRecord(rs, studentId, dateStr)
    ensures HasRecord(rs', studentId, dateStr)
  {
  }

  /** A registration leaves the records of every other student as they were. */
  lemma OthersUnchanged(rs: seq<Record>, studentId: string, dateStr: string, timestamp: string, other: string)
    requires other != studentId
    ensures RecordsOf(Registered(rs, studentId, dateStr, timestamp), other) == RecordsOf(rs, other)
  {
    if !HasRecord(rs, studentId, dateStr) {
      RecordsOfAppend(rs, Record(studentId, dateStr, timestamp), other);
    }
  }

  /** A registration keeps the per-day rule. */
  lemma RegisteredKeepsUnique(rs: seq<Record>, studentId: string, dateStr: string, timestamp: string)
    requires Unique(rs)
    ensures Unique(Registered(rs, studentId, dateStr, timestamp))
  {
    var rs' := Registered(rs, studentId, dateStr, timestamp);
    if !HasRecord(rs, studentId, dateStr) {
      forall i, j | 0 <= i < j < |rs'|
        ensures !IsFor(rs'[j], rs'[i].studentId, rs'[i].dateStr)
      {
        if j == |rs| {
          assert !IsFor(rs[i], studentId, dateStr);
        }
      }
    }
  }

  /**
   * Idempotence within a day: a second registration of the same student on
   * the same day changes nothing, and the pair has exactly one record if it
   * had none before (or the per-day rule held).
   */
  lemma SameDayIdempotent(rs: seq<Record>, studentId: string, dateStr: string, t1: string, t2: string)
    ensures Registered(Registered(rs, studentId, dateStr, t1), studentId, dateStr, t2)
         == Registered(rs, studentId, dateStr, t1)
    ensures (!HasRecord(rs, studentId, dateStr) || Unique(rs)) ==>
              PairCount(Registered(Registered(rs, studentId, dateStr, t1), studentId, dateStr, t2), studentId, dateStr) == 1
  {
    RegisteredEffect(rs, studentId, dateStr, t1);
    var once := Registered(rs, studentId, dateStr, t1);
    if !HasRecord(rs, studentId, dateStr) {
      PairCountZero(rs, studentId, dateStr);
      PairCountAppend(rs, Record(studentId, dateStr, t1), studentId, dateStr);
    } else if Unique(rs) {
      PairCountZero(rs, studentId, dateStr);
      UniqueAtMostOne(rs, studentId, dateStr);
    }
  }

  /**
   * Across days: two registrations of a student with no record on either of
   * two different days append two records, one per day, in call order.
   */
  lemma DifferentDaysTwoRecords(rs: seq<Record>, studentId: string, d1: string, d2: string, t1: string, t2: string)
    requires d1 != d2
    requires !HasRecord(rs, studentId, d1) && !HasRecord(rs, studentId, d2)
    ensures Registered(Registered(rs, studentId, d1, t1), studentId, d2, t2)
         == rs + [Record(studentId, d1, t1), Record(studentId, d2, t2)]
    ensures |RecordsOf(Registered(Registered(rs, studentId, d1, t1), studentId, d2, t2), studentId)|
         == |RecordsOf(rs, studentId)| + 2
  {
    var once := rs + [Record(studentId, d1, t1)];
    assert !HasRecord(once, studentId, d2);
    var twice := once + [Record(studentId, d2, t2)];
    assert twice == rs + [Record(studentId, d1, t1), Record(studentId, d2, t2)];
    RecordsOfAppend(rs, Record(studentId, d1, t1), studentId);
    RecordsOfAppend(once, Record(studentId, d2, t2), studentId);
  }

  /** The attendance table, owned by one object and grown only by `Register`. */
  class AttendanceLedger {
    var records: seq<Record>

    /**
     * The table as `CREATE TABLE IF NOT EXISTS` leaves it: the rows persisted
     * by earlier runs, or none on the first run.
     */
    constructor (persisted: seq<Record>)
      ensures records == persisted
    {
      records := persisted;
    }

    /** The `SELECT ... WHERE student_id = ? AND date_str = ?` lookup, as a scan. */
    method Lookup(studentId: string, dateStr: string) returns (found: bool)
      ensures found <==> HasRecord(records, studentId, dateStr)
    {
      var i := 0;
      while i < |records|
        invariant 0 <= i <= |records|
        invariant forall j :: 0 <= j < i ==> !IsFor(records[j], studentId, dateStr)
      {
        if records[i].studentId == studentId && records[i].dateStr == dateStr {
          return true;
        }
        i := i + 1;
      }
      return false;
    }

    /**
     * Registers attendance: inserts a record unless the student already has
     * one on that day. `recorded` says whether a row was inserted.
     */
    method Register(studentId: string, dateStr: string, timestamp: string) returns (recorded: bool)
      modifies this
      ensures recorded <==> !HasRecord(old(records), studentId, dateStr)
      ensures records == Registered(old(records), studentId, dateStr, timestamp)
      ensures Unique(old(records)) ==> Unique(records)
    {
      var present := Lookup(studentId, dateStr);
      if Unique(records) {
        RegisteredKeepsUnique(records, studentId, dateStr, timestamp);
      }
      recorded := !present;
      if recorded {
        records := records + [Record(studentId, dateStr, timestamp)];
      }
    }
  }
}
