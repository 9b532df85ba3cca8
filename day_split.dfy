/**
 * Timetable rows and the "06:30" day splitter shared by the student view, the
 * teacher view and the legacy viewer.
 *
 * A row is one time slot of the week: its start time, its period label and one
 * cell per class column, in column order.
 */
module DaySplit {
  import opened Base

  datatype Cell = Cell(column: string, value: string)

  datatype Row = Row(time: string, period: string, cells: seq<Cell>)

  /** The start time of the first slot of every school day. */
  const Sentinel: string := "06:30"

  /** The school days, Monday to Friday. */
  const Days: seq<string> := ["Senin", "Selasa", "Rabu", "Kamis", "Jumat"]

  /** The value of the first cell in column `key`, if any. */
  function CellValue(cells: seq<Cell>, key: string): (r: Option<string>)
    ensures r.Some? <==> exists i :: 0 <= i < |cells| && cells[i].column == key
    ensures r.Some? ==> exists i :: 0 <= i < |cells| && cells[i].column == key && cells[i].value == r.value
  {
    if cells == [] then None
    else if cells[0].column == key then Some(cells[0].value)
    else
      var r := CellValue(cells[1..], key);
      assert forall i :: 0 < i < |cells| ==> cells[i] == cells[1..][i - 1];
      r
  }

  /** `row[key]`: the `time` and `period` fields, else the class column `key`; `None` is `undefined`. */
  function Field(row: Row, key: string): Option<string>
  {
    if key == "time" then Some(row.time)
    else if key == "period" then Some(row.period)
    else CellValue(row.cells, key)
  }

  /** The rows of all days, back in one list. */
  function Flatten(days: seq<seq<Row>>): seq<Row>
  {
    if days == [] then [] else Flatten(days[..|days| - 1]) + days[|days| - 1]
  }

  /**
   * The rows cut into days: a row opens a new day when it is the first row or
   * when its time is the sentinel; every other row joins the current day.
   */
  function SplitDays(rows: seq<Row>): seq<seq<Row>>
  {
    if rows == [] then []
    else
      var init := SplitDays(rows[..|rows| - 1]);
      var row := rows[|rows| - 1];
      if init == [] || row.time == Sentinel then init + [[row]]
      else init[..|init| - 1] + [init[|init| - 1] + [row]]
  }

  /** Every day holds at least one row. */
  ghost predicate NonEmptyDays(days: seq<seq<Row>>) {
    forall t :: 0 <= t < |days| ==> days[t] != []
  }

  /** A sentinel row is always the first row of its day, and every day but the first begins with one. */
  ghost predicate SentinelsLead(days: seq<seq<Row>>) {
    && (forall t, p :: 0 <= t < |days| && 0 < p < |days[t]| ==> days[t][p].time != Sentinel)
    && (forall t :: 0 < t < |days| ==> days[t] != [] && days[t][0].time == Sentinel)
  }

  /**
   * `days` is a lossless, order-preserving cut of `rows` into non-empty days
   * that begin exactly at the sentinel rows.
   */
  ghost predicate IsDaySplit(rows: seq<Row>, days: seq<seq<Row>>) {
    Flatten(days) == rows && NonEmptyDays(days) && SentinelsLead(days)
  }

  lemma {:induction false} FlattenSnoc(days: seq<seq<Row>>, d: seq<Row>)
    ensures Flatten(days + [d]) == Flatten(days) + d
  {
    assert (days + [d])[..|days|] == days;
  }

  /** One more row either opens a day or joins the last one. */
  lemma {:induction false} SplitDaysSnoc(rows: seq<Row>, row: Row)
    ensures var init := SplitDays(rows);
      SplitDays(rows + [row]) ==
        if init == [] || row.time == Sentinel then init + [[row]]
        else init[..|init| - 1] + [init[|init| - 1] + [row]]
  {
    assert (rows + [row])[..|rows|] == rows;
  }

  /** Concatenating the days gives back the rows. */
  lemma {:induction false} SplitDaysFlatten(rows: seq<Row>)
    ensures Flatten(SplitDays(rows)) == rows
  {
    if rows != [] {
      var init := SplitDays(rows[..|rows| - 1]);
      var row := rows[|rows| - 1];
      SplitDaysFlatten(rows[..|rows| - 1]);
      assert rows == rows[..|rows| - 1] + [row];
      SplitDaysSnoc(rows[..|rows| - 1], row);
      if init == [] || row.time == Sentinel {
        FlattenSnoc(init, [row]);
      } else {
        var n := |init| - 1;
        assert init == init[..n] + [init[n]];
        FlattenSnoc(init[..n], init[n]);
        FlattenSnoc(init[..n], init[n] + [row]);
      }
    }
  }

  /** The days are non-empty and begin exactly at the sentinel rows. */
  lemma {:induction false} SplitDaysShape(rows: seq<Row>)
    ensures NonEmptyDays(SplitDays(rows)) && SentinelsLead(SplitDays(rows))
  {
    if rows != [] {
      var rows', row := rows[..|rows| - 1], rows[|rows| - 1];
      SplitDaysShape(rows');
      assert rows == rows' + [row];
      SplitDaysSnoc(rows', row);
      var init := SplitDays(rows');
      if init == [] || row.time == Sentinel {
        OpenKeepsShape(init, row);
      } else {
        JoinKeepsShape(init, row);
      }
    }
  }

  lemma {:induction false} OpenKeepsShape(init: seq<seq<Row>>, row: Row)
    requires NonEmptyDays(init) && SentinelsLead(init)
    requires init == [] || row.time == Sentinel
    ensures NonEmptyDays(init + [[row]]) && SentinelsLead(init + [[row]])
  {
  }

  lemma {:induction false} JoinKeepsShape(init: seq<seq<Row>>, row: Row)
    requires NonEmptyDays(init) && SentinelsLead(init)
    requires init != [] && row.time != Sentinel
    ensures var days := init[..|init| - 1] + [init[|init| - 1] + [row]];
      NonEmptyDays(days) && SentinelsLead(days)
  {
    var n := |init| - 1;
    var days := init[..n] + [init[n] + [row]];
    assert forall t :: 0 <= t < n ==> days[t] == init[t];
    assert forall p :: 0 <= p < |init[n]| ==> days[n][p] == init[n][p];
  }

  /** Splitting is lossless and cuts exactly at the sentinel rows. */
  lemma {:induction false} SplitDaysIsDaySplit(rows: seq<Row>)
    ensures IsDaySplit(rows, SplitDays(rows))
  {
    SplitDaysFlatten(rows);
    SplitDaysShape(rows);
  }

  /** Any such cut is the one `SplitDays` makes. */
  lemma {:induction false} DaySplitUnique(rows: seq<Row>, days: seq<seq<Row>>)
    requires IsDaySplit(rows, days)
    ensures days == SplitDays(rows)
  {
    if days != [] {
      var n := |days| - 1;
      if |days[n]| == 1 {
        DropLastDay(rows, days);
        DaySplitUnique(rows[..|rows| - 1], days[..n]);
      } else {
        var days' := DropLastRow(rows, days);
        DaySplitUnique(rows[..|rows| - 1], days');
      }
      SplitDaysSnoc(rows[..|rows| - 1], rows[|rows| - 1]);
    }
  }

  /** A last day of one row is a sentinel row (or the only day) and can be dropped with its row. */
  lemma {:induction false} DropLastDay(rows: seq<Row>, days: seq<seq<Row>>)
    requires IsDaySplit(rows, days) && days != [] && |days[|days| - 1]| == 1
    ensures rows != [] && rows == rows[..|rows| - 1] + [rows[|rows| - 1]]
    ensures IsDaySplit(rows[..|rows| - 1], days[..|days| - 1])
    ensures days == days[..|days| - 1] + [[rows[|rows| - 1]]]
    ensures |days| == 1 || rows[|rows| - 1].time == Sentinel
  {
    var n := |days| - 1;
    var last := days[n];
    assert days == days[..n] + [last];
    FlattenSnoc(days[..n], last);
    assert forall t :: 0 <= t < n ==> days[..n][t] == days[t];
  }

  /** The last row of a longer last day joins it, and can be dropped from it. */
  lemma {:induction false} DropLastRow(rows: seq<Row>, days: seq<seq<Row>>) returns (days': seq<seq<Row>>)
    requires IsDaySplit(rows, days) && days != [] && |days[|days| - 1]| > 1
    ensures rows != [] && rows == rows[..|rows| - 1] + [rows[|rows| - 1]]
    ensures IsDaySplit(rows[..|rows| - 1], days') && |days'| == |days|
    ensures days == days'[..|days'| - 1] + [days'[|days'| - 1] + [rows[|rows| - 1]]]
    ensures rows[|rows| - 1].time != Sentinel
  {
    var n := |days| - 1;
    var last := days[n];
    days' := days[..n] + [last[..|last| - 1]];
    DropRowShape(days);
    DropRowFlatten(days);
  }

  lemma {:induction false} DropRowShape(days: seq<seq<Row>>)
    requires NonEmptyDays(days) && SentinelsLead(days) && days != [] && |days[|days| - 1]| > 1
    ensures var n := |days| - 1; var last := days[n]; var days' := days[..n] + [last[..|last| - 1]];
      NonEmptyDays(days') && SentinelsLead(days') &&
      days == days'[..n] + [days'[n] + [last[|last| - 1]]] && last[|last| - 1].time != Sentinel
  {
    var n := |days| - 1;
    var last := days[n];
    var days' := days[..n] + [last[..|last| - 1]];
    assert last == last[..|last| - 1] + [last[|last| - 1]];
    assert forall t :: 0 <= t < n ==> days'[t] == days[t];
    assert forall p :: 0 <= p < |last| - 1 ==> days'[n][p] == last[p];
    assert days'[..n] == days[..n];
  }

  lemma {:induction false} DropRowFlatten(days: seq<seq<Row>>)
    requires days != [] && |days[|days| - 1]| > 1
    ensures var n := |days| - 1; var last := days[n]; var rows := Flatten(days);
      rows != [] && rows[|rows| - 1] == last[|last| - 1] &&
      Flatten(days[..n] + [last[..|last| - 1]]) == rows[..|rows| - 1]
  {
    var n := |days| - 1;
    var last := days[n];
    assert days == days[..n] + [last];
    FlattenSnoc(days[..n], last);
    assert last == last[..|last| - 1] + [last[|last| - 1]];
    FlattenSnoc(days[..n], last[..|last| - 1]);
  }

  /** The days so far, counting a current day that still holds rows. */
  function Closed(days: seq<seq<Row>>, current: seq<Row>): seq<seq<Row>>
  {
    if current == [] then days else days + [current]
  }

  /** One step of the splitting loop extends the closed days as `SplitDays` does. */
  lemma {:induction false} ClosedStep(rows: seq<Row>, days: seq<seq<Row>>, current: seq<Row>, row: Row)
    requires Closed(days, current) == SplitDays(rows)
    requires current == [] ==> days == []
    ensures var opens := row.time == Sentinel && current != [];
      Closed(if opens then days + [current] else days, (if opens then [] else current) + [row])
        == SplitDays(rows + [row])
  {
    SplitDaysSnoc(rows, row);
    if current != [] {
      var init := days + [current];
      assert init == SplitDays(rows);
      assert init[..|init| - 1] == days && init[|init| - 1] == current;
      if !(row.time == Sentinel) {
        assert Closed(days, current + [row]) == init[..|init| - 1] + [init[|init| - 1] + [row]];
      } else {
        assert [] + [row] == [row];
        assert Closed(days + [current], [row]) == init + [[row]];
      }
    }
  }

  /**
   * The split days of the hooks: walking the rows in order, a sentinel row
   * closes the current day when it holds rows, every row then joins the current
   * day, and a non-empty current day is closed at the end.
   */
  method SplitIntoDays(rows: seq<Row>) returns (days: seq<seq<Row>>)
    ensures days == SplitDays(rows)
  {
    days := [];
    var current: seq<Row> := [];
    for i := 0 to |rows|
      invariant current == [] ==> days == []
      invariant Closed(days, current) == SplitDays(rows[..i])
    {
      var row := rows[i];
      assert rows[..i + 1] == rows[..i] + [row];
      ClosedStep(rows[..i], days, current, row);
      if row.time == Sentinel && current != [] {
        days := days + [current];
        current := [];
      }
      current := current + [row];
    }
    assert rows[..|rows|] == rows;
    if current != [] {
      days := days + [current];
    }
  }

  /**
   * The end time of a block whose last member is row `l`: the time of the row
   * right after it, or `final` when it is the day's last row.
   */
  function EndTimeAfter(rows: seq<Row>, l: nat, final: string): (r: string)
    requires l < |rows|
    ensures l + 1 < |rows| ==> r == rows[l + 1].time
    ensures l + 1 == |rows| ==> r == final
  {
    if l + 1 < |rows| then rows[l + 1].time else final
  }

  /** The rows of `day`: `days[days.indexOf(day)] ?? []`. */
  function DayRows(days: seq<seq<Row>>, day: string): seq<Row>
  {
    At(days, IndexOf(Days, day)).GetOr([])
  }

  /** A day name outside the week, or a day past the last split day, has no rows; a known day has some. */
  lemma {:induction false} DayRowsEmpty(rows: seq<Row>, day: string)
    ensures DayRows(SplitDays(rows), day) == [] <==> IndexOf(Days, day) < 0 || IndexOf(Days, day) >= |SplitDays(rows)|
  {
    SplitDaysIsDaySplit(rows);
  }
}
