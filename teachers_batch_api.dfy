/**
 * `POST /api/teachers/batch`: the statement list built from the request body
 * (inserts, then updates, then deletes) and what running it does to the
 * Teachers table.
 */
module TeachersBatchApi {
  import opened Base
  import opened Records

  /** The request body as parsed; a missing list is `None`. */
  datatype RawBody = RawBody(added: Option<seq<NewTeacher>>, edited: Option<seq<Teacher>>, removed: Option<seq<int>>)

  /** The destructuring defaults: a missing list is empty. */
  function WithDefaults(raw: RawBody): (b: BatchBody)
    ensures raw.added.None? ==> b.added == []
    ensures raw.edited.None? ==> b.edited == []
    ensures raw.removed.None? ==> b.removed == []
    ensures raw.added.Some? ==> b.added == raw.added.value
    ensures raw.edited.Some? ==> b.edited == raw.edited.value
    ensures raw.removed.Some? ==> b.removed == raw.removed.value
  {
    BatchBody(raw.added.GetOr([]), raw.edited.GetOr([]), raw.removed.GetOr([]))
  }

  /** A bound statement. */
  datatype Statement =
    | Insert(code: string, name: string, subject: string)
    | Update(code: string, name: string, subject: string, id: int)
    | Delete(id: int)

  function Inserts(added: seq<NewTeacher>): (r: seq<Statement>)
    ensures |r| == |added|
    ensures forall i :: 0 <= i < |added| ==> r[i] == Insert(added[i].code, added[i].name, added[i].subject)
  {
    seq(|added|, i requires 0 <= i < |added| => Insert(added[i].code, added[i].name, added[i].subject))
  }

  function Updates(edited: seq<Teacher>): (r: seq<Statement>)
    ensures |r| == |edited|
    ensures forall i :: 0 <= i < |edited| ==> r[i] == Update(edited[i].code, edited[i].name, edited[i].subject, edited[i].id)
  {
    seq(|edited|, i requires 0 <= i < |edited| => Update(edited[i].code, edited[i].name, edited[i].subject, edited[i].id))
  }

  function Deletes(removed: seq<int>): (r: seq<Statement>)
    ensures |r| == |removed|
    ensures forall i :: 0 <= i < |removed| ==> r[i] == Delete(removed[i])
  {
    seq(|removed|, i requires 0 <= i < |removed| => Delete(removed[i]))
  }

  /** The statements of a body: all inserts, then all updates, then all deletes. */
  function StatementsOf(b: BatchBody): seq<Statement>
  {
    Inserts(b.added) + Updates(b.edited) + Deletes(b.removed)
  }

  /**
   * `statements`, pushed list by list. Its length is the sum of the list
   * lengths, and the statement at each position is the one for the matching
   * element of the matching list.
   */
  method BuildStatements(b: BatchBody) returns (statements: seq<Statement>)
    ensures statements == StatementsOf(b)
    ensures |statements| == |b.added| + |b.edited| + |b.removed|
  {
    statements := [];
    for i := 0 to |b.added|
      invariant statements == Inserts(b.added[..i])
    {
      statements := statements + [Insert(b.added[i].code, b.added[i].name, b.added[i].subject)];
    }
    assert b.added[..|b.added|] == b.added;
    ghost var inserts := statements;
    for i := 0 to |b.edited|
      invariant statements == inserts + Updates(b.edited[..i])
    {
      var t := b.edited[i];
      statements := statements + [Update(t.code, t.name, t.subject, t.id)];
    }
    assert b.edited[..|b.edited|] == b.edited;
    ghost var upserts := statements;
    for i := 0 to |b.removed|
      invariant statements == upserts + Deletes(b.removed[..i])
    {
      statements := statements + [Delete(b.removed[i])];
    }
    assert b.removed[..|b.removed|] == b.removed;
  }

  // ---------------------------------------------------------------------------
  // The table
  // ---------------------------------------------------------------------------

  /** The Teachers rows and the id the next insert receives. */
  datatype Table = Table(rows: seq<Teacher>, nextId: int)

  function Ids(rows: seq<Teacher>): set<int>
  {
    set r | r in rows :: r.id
  }

  /** Ids are unique and below the next id to hand out. */
  predicate TableValid(t: Table)
  {
    (forall i, j :: 0 <= i < j < |t.rows| ==> t.rows[i].id != t.rows[j].id) &&
    forall r :: r in t.rows ==> r.id < t.nextId
  }

  /** `UPDATE Teachers SET code = ?, name = ?, subject = ? WHERE id = ?` on the rows. */
  function UpdateRows(rows: seq<Teacher>, id: int, code: string, name: string, subject: string): (r: seq<Teacher>)
    ensures |r| == |rows|
    ensures forall i :: 0 <= i < |rows| ==> r[i] == if rows[i].id == id then Teacher(id, code, name, subject) else rows[i]
  {
    seq(|rows|, i requires 0 <= i < |rows| => if rows[i].id == id then Teacher(id, code, name, subject) else rows[i])
  }

  /** `DELETE FROM Teachers WHERE id = ?` on the rows. */
  function DeleteRows(rows: seq<Teacher>, id: int): (r: seq<Teacher>)
    ensures forall x :: x in r <==> x in rows && x.id != id
  {
    if rows == [] then []
    else
      var n := |rows| - 1;
      assert rows == rows[..n] + [rows[n]];
      if rows[n].id == id then DeleteRows(rows[..n], id) else DeleteRows(rows[..n], id) + [rows[n]]
  }

  /** Deleting keeps ids unique. */
  lemma {:induction false} DeleteRowsUnique(rows: seq<Teacher>, id: int)
    requires forall i, j :: 0 <= i < j < |rows| ==> rows[i].id != rows[j].id
    ensures forall i, j :: 0 <= i < j < |DeleteRows(rows, id)| ==> DeleteRows(rows, id)[i].id != DeleteRows(rows, id)[j].id
  {
    if rows != [] {
      var n := |rows| - 1;
      var prefix := DeleteRows(rows[..n], id);
      DeleteRowsUnique(rows[..n], id);
      if rows[n].id != id {
        forall x | x in prefix
          ensures x.id != rows[n].id
        {
          var k :| 0 <= k < n && rows[k] == x;
        }
        var r := prefix + [rows[n]];
        forall i, j | 0 <= i < j < |r|
          ensures r[i].id != r[j].id
        {
          if j == |prefix| {
            assert r[i] in prefix;
          } else {
            assert r[i] == prefix[i] && r[j] == prefix[j];
          }
        }
      }
    }
  }

  /** One statement's effect. */
  function Exec(t: Table, s: Statement): Table
  {
    match s
    case Insert(code, name, subject) => Table(t.rows + [Teacher(t.nextId, code, name, subject)], t.nextId + 1)
    case Update(code, name, subject, id) => Table(UpdateRows(t.rows, id, code, name, subject), t.nextId)
    case Delete(id) => Table(DeleteRows(t.rows, id), t.nextId)
  }

  /** The statements run one after another. */
  function RunAll(t: Table, ss: seq<Statement>): Table
  {
    if ss == [] then t
    else
      var n := |ss| - 1;
      Exec(RunAll(t, ss[..n]), ss[n])
  }

  lemma {:induction false} RunAllAppend(t: Table, xs: seq<Statement>, ys: seq<Statement>)
    ensures RunAll(t, xs + ys) == RunAll(RunAll(t, xs), ys)
  {
    if ys == [] {
      assert xs + ys == xs;
    } else {
      var n := |ys| - 1;
      assert (xs + ys)[..|xs + ys| - 1] == xs + ys[..n];
      RunAllAppend(t, xs, ys[..n]);
    }
  }

  /** Every statement keeps the table valid. */
  lemma {:induction false} ExecValid(t: Table, s: Statement)
    requires TableValid(t)
    ensures TableValid(Exec(t, s))
  {
    match s
    case Insert(code, name, subject) => InsertValid(t, Teacher(t.nextId, code, name, subject));
    case Update(code, name, subject, id) => UpdateValid(t, id, code, name, subject);
    case Delete(id) => DeleteRowsUnique(t.rows, id);
  }

  lemma {:induction false} InsertValid(t: Table, x: Teacher)
    requires TableValid(t) && x.id == t.nextId
    ensures TableValid(Table(t.rows + [x], t.nextId + 1))
  {
    var rows := t.rows + [x];
    forall i, j | 0 <= i < j < |rows|
      ensures rows[i].id != rows[j].id
    {
      if j == |t.rows| {
        assert rows[i] == t.rows[i] && t.rows[i] in t.rows;
      } else {
        assert rows[i] == t.rows[i] && rows[j] == t.rows[j];
      }
    }
  }

  lemma {:induction false} UpdateValid(t: Table, id: int, code: string, name: string, subject: string)
    requires TableValid(t)
    ensures TableValid(Table(UpdateRows(t.rows, id, code, name, subject), t.nextId))
  {
    var rows := UpdateRows(t.rows, id, code, name, subject);
    assert forall i :: 0 <= i < |rows| ==> rows[i].id == t.rows[i].id;
    forall r | r in rows
      ensures r.id < t.nextId
    {
      var k :| 0 <= k < |rows| && rows[k] == r;
      assert t.rows[k] in t.rows;
    }
  }

  lemma {:induction false} RunAllValid(t: Table, ss: seq<Statement>)
    requires TableValid(t)
    ensures TableValid(RunAll(t, ss))
  {
    if ss != [] {
      RunAllValid(t, ss[..|ss| - 1]);
      ExecValid(RunAll(t, ss[..|ss| - 1]), ss[|ss| - 1]);
    }
  }

  /** The inserts append one row per added teacher, with consecutive fresh ids. */
  lemma {:induction false} InsertsPhase(t: Table, added: seq<NewTeacher>)
    ensures RunAll(t, Inserts(added)).nextId == t.nextId + |added|
    ensures RunAll(t, Inserts(added)).rows ==
      t.rows + seq(|added|, i requires 0 <= i < |added| => Teacher(t.nextId + i, added[i].code, added[i].name, added[i].subject))
  {
    if added != [] {
      var n := |added| - 1;
      assert Inserts(added)[..n] == Inserts(added[..n]);
      InsertsPhase(t, added[..n]);
    }
  }

  /** Edits with distinct ids: each row takes the edit with its id, and rows without one stay. */
  lemma {:induction false} UpdatesPhase(t: Table, edited: seq<Teacher>)
    requires forall i, j :: 0 <= i < j < |edited| ==> edited[i].id != edited[j].id
    ensures var r := RunAll(t, Updates(edited));
      r.nextId == t.nextId && |r.rows| == |t.rows| &&
      (forall i, e :: 0 <= i < |t.rows| && e in edited && e.id == t.rows[i].id ==> r.rows[i] == e) &&
      (forall i :: 0 <= i < |t.rows| && (forall e :: e in edited ==> e.id != t.rows[i].id) ==> r.rows[i] == t.rows[i])
  {
    if edited != [] {
      var n := |edited| - 1;
      assert Updates(edited)[..n] == Updates(edited[..n]);
      UpdatesPhase(t, edited[..n]);
      forall e | e in edited[..n]
        ensures e.id != edited[n].id
      {
        var k :| 0 <= k < n && edited[..n][k] == e;
      }
      assert forall e :: e in edited ==> e in edited[..n] || e == edited[n];
    }
  }

  /** The deletes keep exactly the rows whose id is not removed. */
  lemma {:induction false} DeletesPhase(t: Table, removed: seq<int>)
    ensures var r := RunAll(t, Deletes(removed));
      r.nextId == t.nextId && forall x :: x in r.rows <==> x in t.rows && x.id !in removed
  {
    if removed != [] {
      var n := |removed| - 1;
      assert Deletes(removed)[..n] == Deletes(removed[..n]);
      DeletesPhase(t, removed[..n]);
      var r0 := RunAll(t, Deletes(removed[..n]));
      var rows := DeleteRows(r0.rows, removed[n]);
      assert RunAll(t, Deletes(removed)) == Table(rows, r0.nextId);
      SnocMembers(removed);
      forall x
        ensures x in rows <==> x in t.rows && x.id !in removed
      {
        assert x.id in removed <==> x.id in removed[..n] || x.id == removed[n];
      }
    }
  }

  /** The batch as its three phases. */
  lemma {:induction false} Phases(t: Table, b: BatchBody)
    ensures RunAll(t, StatementsOf(b)) == RunAll(RunAll(RunAll(t, Inserts(b.added)), Updates(b.edited)), Deletes(b.removed))
  {
    RunAllAppend(t, Inserts(b.added) + Updates(b.edited), Deletes(b.removed));
    RunAllAppend(t, Inserts(b.added), Updates(b.edited));
  }

  /**
   * The effect of a whole batch whose edits have distinct ids: the table stays
   * valid, no removed id is left, every added teacher is present under a fresh
   * id unless an edit or a delete names that id, an edited teacher whose id was
   * present and is not removed is present as sent, and a row neither edited
   * nor removed is kept.
   */
  lemma {:induction false} BatchEffect(t: Table, b: BatchBody)
    requires TableValid(t)
    requires forall i, j :: 0 <= i < j < |b.edited| ==> b.edited[i].id != b.edited[j].id
    ensures var r := RunAll(t, StatementsOf(b));
      TableValid(r) &&
      (forall x :: x in r.rows ==> x.id !in b.removed) &&
      (forall i :: 0 <= i < |b.added| && t.nextId + i !in b.removed && (forall e :: e in b.edited ==> e.id != t.nextId + i) ==>
        Teacher(t.nextId + i, b.added[i].code, b.added[i].name, b.added[i].subject) in r.rows) &&
      (forall e :: e in b.edited && e.id in Ids(t.rows) && e.id !in b.removed ==> e in r.rows) &&
      (forall x :: x in t.rows && x.id !in b.removed && (forall e :: e in b.edited ==> e.id != x.id) ==> x in r.rows)
  {
    RunAllValid(t, StatementsOf(b));
    Phases(t, b);
    DeletesPhase(RunAll(RunAll(t, Inserts(b.added)), Updates(b.edited)), b.removed);
    forall i | 0 <= i < |b.added| && t.nextId + i !in b.removed && (forall e :: e in b.edited ==> e.id != t.nextId + i)
      ensures Teacher(t.nextId + i, b.added[i].code, b.added[i].name, b.added[i].subject) in RunAll(t, StatementsOf(b)).rows
    {
      AddedSurvives(t, b, i);
    }
    forall e | e in b.edited && e.id in Ids(t.rows) && e.id !in b.removed
      ensures e in RunAll(t, StatementsOf(b)).rows
    {
      EditSurvives(t, b, e);
    }
    forall x | x in t.rows && x.id !in b.removed && (forall e :: e in b.edited ==> e.id != x.id)
      ensures x in RunAll(t, StatementsOf(b)).rows
    {
      RowSurvives(t, b, x);
    }
  }

  lemma {:induction false} DeletesKeep(t: Table, removed: seq<int>, x: Teacher)
    requires x in t.rows && x.id !in removed
    ensures x in RunAll(t, Deletes(removed)).rows
  {
    DeletesPhase(t, removed);
  }

  lemma {:induction false} AddedSurvives(t: Table, b: BatchBody, i: int)
    requires forall i, j :: 0 <= i < j < |b.edited| ==> b.edited[i].id != b.edited[j].id
    requires 0 <= i < |b.added| && t.nextId + i !in b.removed && (forall e :: e in b.edited ==> e.id != t.nextId + i)
    ensures Teacher(t.nextId + i, b.added[i].code, b.added[i].name, b.added[i].subject) in RunAll(t, StatementsOf(b)).rows
  {
    var t1 := RunAll(t, Inserts(b.added));
    var t2 := RunAll(t1, Updates(b.edited));
    var k := |t.rows| + i;
    var x := Teacher(t.nextId + i, b.added[i].code, b.added[i].name, b.added[i].subject);
    InsertedAt(t, b.added, i);
    UpdatesKeep(t1, b.edited, k);
    assert x in t2.rows;
    DeletesKeep(t2, b.removed, x);
    Phases(t, b);
  }

  /** The `i`-th added teacher sits after the old rows. */
  lemma {:induction false} InsertedAt(t: Table, added: seq<NewTeacher>, i: int)
    requires 0 <= i < |added|
    ensures var rows := RunAll(t, Inserts(added)).rows;
      |t.rows| + i < |rows| && rows[|t.rows| + i] == Teacher(t.nextId + i, added[i].code, added[i].name, added[i].subject)
  {
    InsertsPhase(t, added);
  }

  /** A row that no edit names is left as it is. */
  lemma {:induction false} UpdatesKeep(t: Table, edited: seq<Teacher>, k: int)
    requires forall i, j :: 0 <= i < j < |edited| ==> edited[i].id != edited[j].id
    requires 0 <= k < |t.rows| && forall e :: e in edited ==> e.id != t.rows[k].id
    ensures var rows := RunAll(t, Updates(edited)).rows; k < |rows| && rows[k] == t.rows[k]
  {
    UpdatesPhase(t, edited);
  }

  lemma {:induction false} EditSurvives(t: Table, b: BatchBody, e: Teacher)
    requires forall i, j :: 0 <= i < j < |b.edited| ==> b.edited[i].id != b.edited[j].id
    requires e in b.edited && e.id in Ids(t.rows) && e.id !in b.removed
    ensures e in RunAll(t, StatementsOf(b)).rows
  {
    var t1 := RunAll(t, Inserts(b.added));
    var t2 := RunAll(t1, Updates(b.edited));
    Phases(t, b);
    InsertsPhase(t, b.added);
    UpdatesPhase(t1, b.edited);
    DeletesPhase(t2, b.removed);
    var x :| x in t.rows && x.id == e.id;
    var k :| 0 <= k < |t.rows| && t.rows[k] == x;
    assert t1.rows[k] == x;
    assert t2.rows[k] == e && t2.rows[k] in t2.rows;
  }

  lemma {:induction false} RowSurvives(t: Table, b: BatchBody, x: Teacher)
    requires forall i, j :: 0 <= i < j < |b.edited| ==> b.edited[i].id != b.edited[j].id
    requires x in t.rows && x.id !in b.removed && (forall e :: e in b.edited ==> e.id != x.id)
    ensures x in RunAll(t, StatementsOf(b)).rows
  {
    var t1 := RunAll(t, Inserts(b.added));
    var t2 := RunAll(t1, Updates(b.edited));
    Phases(t, b);
    InsertsPhase(t, b.added);
    UpdatesPhase(t1, b.edited);
    DeletesPhase(t2, b.removed);
    var k :| 0 <= k < |t.rows| && t.rows[k] == x;
    assert t1.rows[k] == x;
    assert t2.rows[k] == x && t2.rows[k] in t2.rows;
  }

  datatype Response = Response(status: int, message: string, error: Option<string>)

  /**
   * The request body: parsed into lists; not JSON (`request.json()` throws an
   * `Error` with `message`); or JSON of the wrong shape that makes building the
   * statements throw a `TypeError` with `message` (a `null` body, a `null` or
   * non-empty string in place of a list, a `null` teacher). A value with no
   * `length`, such as a number in place of a list, or an empty string, skips
   * its phase and is the empty list of `Parsed`.
   */
  datatype Request = Parsed(body: RawBody) | Unparsable(message: string) | Malformed(message: string)

  /** How running the batch ended: it went through, or threw an `Error` with a message, or threw something else. */
  datatype Outcome = Succeeded | ThrewError(message: string) | ThrewOther

  const UnknownError: string := "An unknown error occurred"

  /** The Teachers table behind the handler. */
  class TeachersStore {
    var table: Table

    constructor(t: Table)
      ensures table == t
    {
      table := t;
    }

    /**
     * The handler. `outcome` is how the database runs the batch, when one is
     * sent. Only a batch that goes through changes the table, and no batch is
     * sent for zero statements, so an empty body always succeeds.
     */
    method HandleBatch(request: Request, outcome: Outcome) returns (res: Response)
      modifies this
      ensures request.Unparsable? ==>
        table == old(table) && res == Response(500, "Batch update failed", Some(request.message))
      ensures request.Malformed? ==>
        table == old(table) && res == Response(500, "Batch update failed", Some(request.message))
      ensures request.Parsed? ==>
        var statements := StatementsOf(WithDefaults(request.body));
        if statements == [] || outcome.Succeeded? then
          table == RunAll(old(table), statements) && res == Response(200, "Batch update successful", None)
        else
          table == old(table) &&
          res == Response(500, "Batch update failed", Some(if outcome.ThrewError? then outcome.message else UnknownError))
    {
      if !request.Parsed? {
        return Response(500, "Batch update failed", Some(request.message));
      }
      var b := WithDefaults(request.body);
      var statements := BuildStatements(b);
      if |statements| > 0 {
        if !outcome.Succeeded? {
          var msg := if outcome.ThrewError? then outcome.message else UnknownError;
          return Response(500, "Batch update failed", Some(msg));
        }
        RunBatch(statements);
      }
      res := Response(200, "Batch update successful", None);
    }

    /** `db.batch(statements)`: each statement in turn. */
    method RunBatch(statements: seq<Statement>)
      modifies this
      ensures table == RunAll(old(table), statements)
    {
      for k := 0 to |statements|
        invariant table == RunAll(old(table), statements[..k])
      {
        assert statements[..k + 1][..k] == statements[..k];
        table := Exec(table, statements[k]);
      }
      assert statements[..|statements|] == statements;
    }
  }
}
