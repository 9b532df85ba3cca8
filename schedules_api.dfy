/**
 * `/api/schedules`: GET lists the Schedules table ordered by day, time slot
 * and class; PUT runs one `UPDATE ... SET col = COALESCE(?, col) ... WHERE id = ?`
 * per patch, in order, in one batch.
 */
module SchedulesApi {
  import opened Base
  import opened Text
  import opened Records

  // ---------------------------------------------------------------------------
  // GET
  // ---------------------------------------------------------------------------

  /** `ORDER BY day, time_slot, class_name`: `a` may come before `b`. */
  predicate RowLeq(a: Schedule, b: Schedule)
  {
    a.day < b.day ||
    (a.day == b.day && (LexLess(a.timeSlot, b.timeSlot) ||
      (a.timeSlot == b.timeSlot && LexLessEq(a.className, b.className))))
  }

  lemma {:induction false} RowLeqTotal(a: Schedule, b: Schedule)
    ensures RowLeq(a, b) || RowLeq(b, a)
  {
    LexLessTotal(a.timeSlot, b.timeSlot);
    LexLessTotal(a.className, b.className);
  }

  lemma {:induction false} RowLeqTransitive(a: Schedule, b: Schedule, c: Schedule)
    requires RowLeq(a, b) && RowLeq(b, c)
    ensures RowLeq(a, c)
  {
    if a.day == b.day == c.day {
      if LexLess(a.timeSlot, b.timeSlot) && LexLess(b.timeSlot, c.timeSlot) {
        LexLessTransitive(a.timeSlot, b.timeSlot, c.timeSlot);
      } else if a.timeSlot == b.timeSlot == c.timeSlot && LexLess(a.className, b.className) && LexLess(b.className, c.className) {
        LexLessTransitive(a.className, b.className, c.className);
      }
    }
  }

  predicate Ordered(rows: seq<Schedule>)
  {
    forall i, j :: 0 <= i < j < |rows| ==> RowLeq(rows[i], rows[j])
  }

  /** Inserts `r` into ordered rows in front of the first row it may precede. */
  function InsertRow(r: Schedule, rows: seq<Schedule>): (res: seq<Schedule>)
    requires Ordered(rows)
    ensures Ordered(res) && multiset(res) == multiset(rows) + multiset{r}
  {
    if rows == [] then [r]
    else if RowLeq(r, rows[0]) then
      assert forall j :: 0 < j < |rows| ==> RowLeq(r, rows[j]) by {
        forall j | 0 < j < |rows| {
          RowLeqTransitive(r, rows[0], rows[j]);
        }
      }
      [r] + rows
    else
      RowLeqTotal(r, rows[0]);
      assert rows == [rows[0]] + rows[1..];
      var rest := InsertRow(r, rows[1..]);
      InsertBehind(r, rows, rest);
      [rows[0]] + rest
  }

  lemma {:induction false} InsertBehind(r: Schedule, rows: seq<Schedule>, rest: seq<Schedule>)
    requires Ordered(rows) && rows != [] && RowLeq(rows[0], r)
    requires Ordered(rest) && multiset(rest) == multiset(rows[1..]) + multiset{r}
    ensures Ordered([rows[0]] + rest)
  {
    forall y | y in rest
      ensures RowLeq(rows[0], y)
    {
      assert y in multiset(rest);
      if y != r {
        assert y in multiset(rows[1..]);
        var j :| 0 <= j < |rows| - 1 && rows[1..][j] == y;
        assert rows[j + 1] == y;
      }
    }
    var s := [rows[0]] + rest;
    forall i, j | 0 <= i < j < |s|
      ensures RowLeq(s[i], s[j])
    {
      if i == 0 {
        assert s[j] == rest[j - 1] && s[j] in rest;
      } else {
        assert s[i] == rest[i - 1] && s[j] == rest[j - 1];
      }
    }
  }

  /** The GET result: the table's rows, each as often, in `ORDER BY` order. */
  function Listed(rows: seq<Schedule>): (r: seq<Schedule>)
    ensures Ordered(r) && multiset(r) == multiset(rows)
  {
    if rows == [] then []
    else
      var n := |rows| - 1;
      assert rows == rows[..n] + [rows[n]];
      InsertRow(rows[n], Listed(rows[..n]))
  }

  // ---------------------------------------------------------------------------
  // PUT
  // ---------------------------------------------------------------------------

  /** One element of the request body; an absent or null field is `None`. */
  datatype Patch = Patch(id: int, teacherCode: Option<string>, className: Option<string>, timeSlot: Option<string>, day: Option<int>)

  /** `COALESCE(?, column)`: the supplied value, or the stored one. */
  function Coalesce<T>(supplied: Option<T>, stored: T): T
  {
    if supplied.Some? then supplied.value else stored
  }

  /** The `SET` list applied to one row. */
  function Patched(r: Schedule, p: Patch): Schedule
  {
    Schedule(r.id, Coalesce(p.day, r.day), Coalesce(p.timeSlot, r.timeSlot), Coalesce(p.className, r.className),
      if p.teacherCode.Some? then p.teacherCode else r.teacherCode)
  }

  /** One `UPDATE` statement: the rows with the patch's id are patched, the others kept. */
  function ApplyPatch(rows: seq<Schedule>, p: Patch): (r: seq<Schedule>)
    ensures |r| == |rows|
    ensures forall i :: 0 <= i < |rows| ==> r[i] == if rows[i].id == p.id then Patched(rows[i], p) else rows[i]
  {
    seq(|rows|, i requires 0 <= i < |rows| => if rows[i].id == p.id then Patched(rows[i], p) else rows[i])
  }

  /** The batch: the statements one after another, in body order. */
  function ApplyBatch(rows: seq<Schedule>, patches: seq<Patch>): seq<Schedule>
  {
    if patches == [] then rows
    else
      var n := |patches| - 1;
      ApplyPatch(ApplyBatch(rows, patches[..n]), patches[n])
  }

  /** The last value supplied, or `stored` when none is. */
  function LastSupplied<T>(vals: seq<Option<T>>, stored: T): T
  {
    if vals == [] then stored
    else
      var n := |vals| - 1;
      if vals[n].Some? then vals[n].value else LastSupplied(vals[..n], stored)
  }

  /** What the patches with `id` supply for each column, in body order. */
  function DaysFor(ps: seq<Patch>, id: int): seq<Option<int>>
  {
    seq(|ps|, k requires 0 <= k < |ps| => if ps[k].id == id then ps[k].day else None)
  }

  function SlotsFor(ps: seq<Patch>, id: int): seq<Option<string>>
  {
    seq(|ps|, k requires 0 <= k < |ps| => if ps[k].id == id then ps[k].timeSlot else None)
  }

  function ClassesFor(ps: seq<Patch>, id: int): seq<Option<string>>
  {
    seq(|ps|, k requires 0 <= k < |ps| => if ps[k].id == id then ps[k].className else None)
  }

  function CodesFor(ps: seq<Patch>, id: int): seq<Option<Option<string>>>
  {
    seq(|ps|, k requires 0 <= k < |ps| => if ps[k].id == id && ps[k].teacherCode.Some? then Some(ps[k].teacherCode) else None)
  }

  /**
   * The row as the batch should leave it, column by column: the value the
   * last patch with its id supplies, or the stored value when none does.
   */
  function Expected(r: Schedule, ps: seq<Patch>): Schedule
  {
    Schedule(r.id, LastSupplied(DaysFor(ps, r.id), r.day), LastSupplied(SlotsFor(ps, r.id), r.timeSlot),
      LastSupplied(ClassesFor(ps, r.id), r.className), LastSupplied(CodesFor(ps, r.id), r.teacherCode))
  }

  /**
   * The batch leaves every row where it was and gives each column the last
   * value supplied for the row's id: a later patch wins for the columns it
   * supplies, a patch for an unknown id changes nothing, and rows no patch
   * names are unchanged.
   */
  lemma {:induction false} ApplyBatchRows(rows: seq<Schedule>, ps: seq<Patch>)
    ensures |ApplyBatch(rows, ps)| == |rows|
    ensures forall i :: 0 <= i < |rows| ==> ApplyBatch(rows, ps)[i] == Expected(rows[i], ps)
  {
    if ps != [] {
      var n := |ps| - 1;
      ApplyBatchRows(rows, ps[..n]);
      forall i | 0 <= i < |rows|
        ensures ApplyBatch(rows, ps)[i] == Expected(rows[i], ps)
      {
        ExpectedStep(rows[i], ps);
      }
    }
  }

  lemma {:induction false} ExpectedStep(r: Schedule, ps: seq<Patch>)
    requires ps != []
    ensures var n := |ps| - 1;
      Expected(r, ps) == if ps[n].id == r.id then Patched(Expected(r, ps[..n]), ps[n]) else Expected(r, ps[..n])
  {
    var n := |ps| - 1;
    assert DaysFor(ps, r.id)[..n] == DaysFor(ps[..n], r.id);
    assert SlotsFor(ps, r.id)[..n] == SlotsFor(ps[..n], r.id);
    assert ClassesFor(ps, r.id)[..n] == ClassesFor(ps[..n], r.id);
    assert CodesFor(ps, r.id)[..n] == CodesFor(ps[..n], r.id);
  }

  /** A row no patch names is left as it is. */
  lemma {:induction false} UnnamedRowKept(r: Schedule, ps: seq<Patch>)
    requires forall p :: p in ps ==> p.id != r.id
    ensures Expected(r, ps) == r
  {
    NoneSupplied(DaysFor(ps, r.id), r.day);
    NoneSupplied(SlotsFor(ps, r.id), r.timeSlot);
    NoneSupplied(ClassesFor(ps, r.id), r.className);
    NoneSupplied(CodesFor(ps, r.id), r.teacherCode);
  }

  lemma {:induction false} NoneSupplied<T>(vals: seq<Option<T>>, stored: T)
    requires forall i :: 0 <= i < |vals| ==> vals[i].None?
    ensures LastSupplied(vals, stored) == stored
  {
    if vals != [] {
      NoneSupplied(vals[..|vals| - 1], stored);
    }
  }

  /** Once a value is supplied, what was stored before no longer matters; otherwise it is kept. */
  lemma {:induction false} LastSuppliedStored<T>(vals: seq<Option<T>>, a: T, b: T)
    ensures LastSupplied(vals, a) == LastSupplied(vals, b) || (LastSupplied(vals, a) == a && LastSupplied(vals, b) == b)
  {
    if vals != [] {
      LastSuppliedStored(vals[..|vals| - 1], a, b);
    }
  }

  /** Sending the same batch twice leaves the table as sending it once. */
  lemma {:induction false} ApplyBatchIdempotent(rows: seq<Schedule>, ps: seq<Patch>)
    ensures ApplyBatch(ApplyBatch(rows, ps), ps) == ApplyBatch(rows, ps)
  {
    var once := ApplyBatch(rows, ps);
    ApplyBatchRows(rows, ps);
    ApplyBatchRows(once, ps);
    forall i | 0 <= i < |rows|
      ensures Expected(once[i], ps) == once[i]
    {
      var r := rows[i];
      LastSuppliedStored(DaysFor(ps, r.id), r.day, once[i].day);
      LastSuppliedStored(SlotsFor(ps, r.id), r.timeSlot, once[i].timeSlot);
      LastSuppliedStored(ClassesFor(ps, r.id), r.className, once[i].className);
      LastSuppliedStored(CodesFor(ps, r.id), r.teacherCode, once[i].teacherCode);
    }
  }

  /** The PUT body once read: an array of patches, or a value `updates.map` throws on (not JSON, or not an array). */
  datatype PutBody = Patches(patches: seq<Patch>) | NotAnArray

  /** How the PUT handler ends: 204 with no body, or an exception thrown out of it. */
  datatype PutResult = NoContent | Threw

  /** The D1 table the handlers read and write. */
  class ScheduleStore {
    var rows: seq<Schedule>

    constructor(rows: seq<Schedule>)
      ensures this.rows == rows
    {
      this.rows := rows;
    }

    /** GET: the rows in `ORDER BY` order. */
    method Get() returns (listed: seq<Schedule>)
      ensures listed == Listed(rows)
    {
      listed := Listed(rows);
    }

    /**
     * PUT: one `UPDATE` per patch in body order, sent as one batch, then 204
     * with no body. A body that `updates.map` cannot run over, or a batch that
     * throws, ends the handler with the exception and leaves the table as it
     * was. `batchSucceeds` is how the database runs the batch.
     */
    method Put(body: PutBody, batchSucceeds: bool) returns (result: PutResult)
      modifies this
      ensures body.NotAnArray? ==> rows == old(rows) && result == Threw
      ensures body.Patches? && !batchSucceeds ==> rows == old(rows) && result == Threw
      ensures body.Patches? && batchSucceeds ==> rows == ApplyBatch(old(rows), body.patches) && result == NoContent
    {
      if body.NotAnArray? {
        return Threw;
      }
      if !batchSucceeds {
        return Threw;
      }
      var patches := body.patches;
      for k := 0 to |patches|
        invariant rows == ApplyBatch(old(rows), patches[..k])
      {
        assert patches[..k + 1][..k] == patches[..k];
        var p := patches[k];
        var before := rows;
        for i := 0 to |rows|
          invariant |rows| == |before|
          invariant forall j :: 0 <= j < i ==> rows[j] == ApplyPatch(before, p)[j]
          invariant forall j :: i <= j < |rows| ==> rows[j] == before[j]
        {
          if rows[i].id == p.id {
            rows := rows[i := Patched(rows[i], p)];
          }
        }
        assert rows == ApplyPatch(before, p);
      }
      assert patches[..|patches|] == patches;
      result := NoContent;
    }
  }
}
