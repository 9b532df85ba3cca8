/**
 * The student view: one class's timetable for one day, with consecutive slots
 * of the same subject code merged into blocks. Slots whose cell is empty are
 * passed over; a slot with an empty period (a break) always starts a new block.
 */
module StudentSchedule {
  import opened Base
  import opened Runs
  import opened DaySplit

  datatype StudentBlock = StudentBlock(time: string, period: string, code: string, endTime: string, endPeriod: string)

  /** The end time shown after the day's last slot. */
  const LastEnd: string := "Selesai"

  /** The class's cell in `row`; a missing column reads as the empty string. */
  function Subject(row: Row, cls: string): string
  {
    Field(row, cls).GetOr("")
  }

  /** Each row seen by the grouping: tagged by its cell, kept when the cell is non-empty, breaking when its period is empty. */
  function Items(rows: seq<Row>, cls: string): (r: seq<Item<string>>)
    ensures |r| == |rows|
    ensures forall i :: 0 <= i < |rows| ==>
      r[i] == Item(Subject(rows[i], cls), Subject(rows[i], cls) != "", rows[i].period == "")
  {
    seq(|rows|, i requires 0 <= i < |rows| => Item(Subject(rows[i], cls), Subject(rows[i], cls) != "", rows[i].period == ""))
  }

  /** The block covering rows `sp.first` to `sp.last`. */
  function BlockOf(rows: seq<Row>, cls: string, sp: Span): StudentBlock
    requires sp.first <= sp.last < |rows|
  {
    StudentBlock(rows[sp.first].time, rows[sp.first].period, Subject(rows[sp.first], cls),
                 EndTimeAfter(rows, sp.last, LastEnd), rows[sp.last].period)
  }

  function Blocks(rows: seq<Row>, cls: string, sps: seq<Span>): (r: seq<StudentBlock>)
    requires forall t :: 0 <= t < |sps| ==> sps[t].first <= sps[t].last < |rows|
    ensures |r| == |sps| && forall t :: 0 <= t < |sps| ==> r[t] == BlockOf(rows, cls, sps[t])
  {
    seq(|sps|, t requires 0 <= t < |sps| => BlockOf(rows, cls, sps[t]))
  }

  /** The blocks of one day's rows. */
  function StudentBlocks(rows: seq<Row>, cls: string): seq<StudentBlock>
  {
    Blocks(rows, cls, SpansOf(Items(rows, cls), |rows|))
  }

  /** What the view shows: nothing without data, else the blocks of the selected day. */
  function StudentSchedule(data: Option<seq<Row>>, day: string, cls: string): seq<StudentBlock>
  {
    match data
    case None => []
    case Some(rows) => StudentBlocks(DayRows(SplitDays(rows), day), cls)
  }

  /** The closed blocks followed by the open one, if any. */
  function WithOpen(combined: seq<StudentBlock>, block: Option<StudentBlock>): seq<StudentBlock>
  {
    match block
    case None => combined
    case Some(b) => combined + [b]
  }

  /** The loop invariant of the merging pass after `i` rows. */
  ghost predicate Merged(rows: seq<Row>, cls: string, i: nat, combined: seq<StudentBlock>, block: Option<StudentBlock>)
    requires i <= |rows|
  {
    var sps := SpansOf(Items(rows, cls), i);
    && (block.None? <==> sps == [])
    && (block.None? ==> combined == [])
    && WithOpen(combined, block) == Blocks(rows, cls, sps)
  }

  /** A row with an empty cell changes nothing. */
  lemma {:induction false} SkipStep(rows: seq<Row>, cls: string, i: nat, combined: seq<StudentBlock>, block: Option<StudentBlock>)
    requires i < |rows| && Merged(rows, cls, i, combined, block) && Subject(rows[i], cls) == ""
    ensures Merged(rows, cls, i + 1, combined, block)
  {
    assert SpansOf(Items(rows, cls), i + 1) == SpansOf(Items(rows, cls), i);
  }

  /** A row that breaks the open block closes it and opens its own. */
  lemma {:induction false} OpenStep(rows: seq<Row>, cls: string, i: nat, combined: seq<StudentBlock>, block: Option<StudentBlock>)
    requires i < |rows| && Merged(rows, cls, i, combined, block)
    requires Subject(rows[i], cls) != ""
    requires block.None? || Subject(rows[i], cls) != block.value.code || rows[i].period == ""
    ensures Merged(rows, cls, i + 1, WithOpen(combined, block),
      Some(StudentBlock(rows[i].time, rows[i].period, Subject(rows[i], cls), EndTimeAfter(rows, i, LastEnd), rows[i].period)))
  {
    var items := Items(rows, cls);
    var prev := SpansOf(items, i);
    if block.Some? {
      assert block.value == BlockOf(rows, cls, prev[|prev| - 1]);
    }
    assert SpansOf(items, i + 1) == prev + [Span(i, i)];
  }

  /** A row that continues the open block becomes its last member. */
  lemma {:induction false} ExtendStep(rows: seq<Row>, cls: string, i: nat, combined: seq<StudentBlock>, c: StudentBlock)
    requires i < |rows| && Merged(rows, cls, i, combined, Some(c))
    requires Subject(rows[i], cls) == c.code && c.code != "" && rows[i].period != ""
    ensures Merged(rows, cls, i + 1, combined,
      Some(c.(endTime := EndTimeAfter(rows, i, LastEnd), endPeriod := rows[i].period)))
  {
    ExtendSpans(rows, cls, i, combined, c);
    ExtendClose(rows, cls, i, combined, c);
  }

  /** From the extended spans, the state after the row with the open block extended. */
  lemma {:induction false} ExtendClose(rows: seq<Row>, cls: string, i: nat, combined: seq<StudentBlock>, c: StudentBlock)
    requires i < |rows|
    requires var prev := SpansOf(Items(rows, cls), i);
      prev != [] && c == BlockOf(rows, cls, prev[|prev| - 1]) && combined == Blocks(rows, cls, prev)[..|prev| - 1]
      && SpansOf(Items(rows, cls), i + 1) == prev[..|prev| - 1] + [Span(prev[|prev| - 1].first, i)]
    ensures Merged(rows, cls, i + 1, combined,
      Some(c.(endTime := EndTimeAfter(rows, i, LastEnd), endPeriod := rows[i].period)))
  {
    var prev := SpansOf(Items(rows, cls), i);
    ExtendAssemble(rows, cls, prev, SpansOf(Items(rows, cls), i + 1), combined, c, i);
    MergedOf(rows, cls, i + 1, combined, c.(endTime := EndTimeAfter(rows, i, LastEnd), endPeriod := rows[i].period));
  }

  /** The spans after a row that extends the open block: the last span now ends at that row. */
  lemma {:induction false} ExtendSpans(rows: seq<Row>, cls: string, i: nat, combined: seq<StudentBlock>, c: StudentBlock)
    requires i < |rows| && Merged(rows, cls, i, combined, Some(c))
    requires Subject(rows[i], cls) == c.code && c.code != "" && rows[i].period != ""
    ensures var prev := SpansOf(Items(rows, cls), i);
      prev != [] && c == BlockOf(rows, cls, prev[|prev| - 1]) && combined == Blocks(rows, cls, prev)[..|prev| - 1]
      && SpansOf(Items(rows, cls), i + 1) == prev[..|prev| - 1] + [Span(prev[|prev| - 1].first, i)]
  {
    var prev := SpansOf(Items(rows, cls), i);
    MergedOpen(rows, cls, i, combined, c);
    SameCodeExtends(rows, cls, i, prev[|prev| - 1].first);
  }

  /** With a block open, the spans so far end in its span and the closed blocks are the others. */
  lemma {:induction false} MergedOpen(rows: seq<Row>, cls: string, i: nat, combined: seq<StudentBlock>, b: StudentBlock)
    requires i <= |rows| && Merged(rows, cls, i, combined, Some(b))
    ensures var sps := SpansOf(Items(rows, cls), i);
      sps != [] && b == BlockOf(rows, cls, sps[|sps| - 1]) && combined == Blocks(rows, cls, sps)[..|sps| - 1]
  {
    OpenIsLast(rows, cls, SpansOf(Items(rows, cls), i), combined, b);
  }

  /** The state after row `i` with a block open, from the blocks of the spans so far. */
  lemma {:induction false} MergedOf(rows: seq<Row>, cls: string, i: nat, combined: seq<StudentBlock>, b: StudentBlock)
    requires i <= |rows|
    requires var sps := SpansOf(Items(rows, cls), i); sps != [] && Blocks(rows, cls, sps) == combined + [b]
    ensures Merged(rows, cls, i, combined, Some(b))
  {
  }

  /** The open block extended to row `i` is the last block of the extended spans. */
  lemma {:induction false} ExtendAssemble(rows: seq<Row>, cls: string, prev: seq<Span>, next: seq<Span>,
                       combined: seq<StudentBlock>, b: StudentBlock, i: nat)
    requires i < |rows| && prev != []
    requires forall t :: 0 <= t < |prev| ==> prev[t].first <= prev[t].last < i
    requires b == BlockOf(rows, cls, prev[|prev| - 1]) && combined == Blocks(rows, cls, prev)[..|prev| - 1]
    requires next == prev[..|prev| - 1] + [Span(prev[|prev| - 1].first, i)]
    ensures next != [] && forall t :: 0 <= t < |next| ==> next[t].first <= next[t].last < |rows|
    ensures Blocks(rows, cls, next) == combined + [b.(endTime := EndTimeAfter(rows, i, LastEnd), endPeriod := rows[i].period)]
  {
    var n := |prev| - 1;
    BlocksReplaceLast(rows, cls, prev, Span(prev[n].first, i));
    BlockExtended(rows, cls, prev[n], i, b);
  }

  /** Extending a block to row `i` moves its end to that row and keeps its start. */
  lemma {:induction false} BlockExtended(rows: seq<Row>, cls: string, sp: Span, i: nat, b: StudentBlock)
    requires sp.first <= sp.last < i < |rows| && b == BlockOf(rows, cls, sp)
    ensures b.(endTime := EndTimeAfter(rows, i, LastEnd), endPeriod := rows[i].period) == BlockOf(rows, cls, Span(sp.first, i))
  {
  }

  lemma {:induction false} OpenIsLast(rows: seq<Row>, cls: string, sps: seq<Span>, combined: seq<StudentBlock>, b: StudentBlock)
    requires forall t :: 0 <= t < |sps| ==> sps[t].first <= sps[t].last < |rows|
    requires Blocks(rows, cls, sps) == combined + [b]
    ensures sps != [] && b == BlockOf(rows, cls, sps[|sps| - 1]) && combined == Blocks(rows, cls, sps)[..|sps| - 1]
  {
    var n := |sps| - 1;
    assert Blocks(rows, cls, sps)[n] == b;
    assert Blocks(rows, cls, sps)[..n] == combined;
  }

  /** A row with the code of the open block's first row and a non-empty period extends its span. */
  lemma {:induction false} SameCodeExtends(rows: seq<Row>, cls: string, i: nat, f: nat)
    requires f < i < |rows|
    requires var sps := SpansOf(Items(rows, cls), i); sps != [] && sps[|sps| - 1].first == f
    requires Subject(rows[i], cls) == Subject(rows[f], cls) != "" && rows[i].period != ""
    ensures var sps := SpansOf(Items(rows, cls), i);
      SpansOf(Items(rows, cls), i + 1) == sps[..|sps| - 1] + [Span(f, i)]
  {
    assert !Breaks(Items(rows, cls), i, f);
  }

  lemma {:induction false} BlocksReplaceLast(rows: seq<Row>, cls: string, sps: seq<Span>, x: Span)
    requires sps != [] && x.first <= x.last < |rows|
    requires forall t :: 0 <= t < |sps| ==> sps[t].first <= sps[t].last < |rows|
    ensures Blocks(rows, cls, sps[..|sps| - 1] + [x]) == Blocks(rows, cls, sps)[..|sps| - 1] + [BlockOf(rows, cls, x)]
  {
  }

  /**
   * `useStudentSchedule`: split the data into days, take the selected day's
   * rows, and merge them into blocks in one pass.
   */
  method UseStudentSchedule(scheduleData: Option<seq<Row>>, selectedDay: string, selectedClass: string)
    returns (combined: seq<StudentBlock>)
    ensures combined == StudentSchedule(scheduleData, selectedDay, selectedClass)
  {
    if scheduleData.None? {
      return [];
    }
    var daysSchedules := SplitIntoDays(scheduleData.value);
    var todayRows := DayRows(daysSchedules, selectedDay);
    combined := [];
    var block: Option<StudentBlock> := None;
    for i := 0 to |todayRows|
      invariant Merged(todayRows, selectedClass, i, combined, block)
    {
      var row := todayRows[i];
      var subject := Subject(row, selectedClass);
      var endTime := EndTimeAfter(todayRows, i, LastEnd);
      if subject == "" {
        SkipStep(todayRows, selectedClass, i, combined, block);
        continue;
      }
      if block.None? || subject != block.value.code || row.period == "" {
        OpenStep(todayRows, selectedClass, i, combined, block);
        if block.Some? {
          combined := combined + [block.value];
        }
        block := Some(StudentBlock(row.time, row.period, subject, endTime, row.period));
      } else {
        ExtendStep(todayRows, selectedClass, i, combined, block.value);
        block := Some(block.value.(endTime := endTime, endPeriod := row.period));
      }
    }
    if block.Some? {
      combined := combined + [block.value];
    }
  }

  /**
   * The blocks are those of the one partition of the rows with non-empty cells
   * into maximal runs of one code, cut before every row with an empty period.
   */
  lemma {:induction false} StudentBlocksArePartitionBlocks(rows: seq<Row>, cls: string, sp: seq<Span>)
    requires Partitions(Items(rows, cls), |rows|, sp)
    ensures StudentBlocks(rows, cls) == Blocks(rows, cls, sp)
  {
    PartitionsUnique(Items(rows, cls), |rows|, sp);
  }

  /** Every block shows a non-empty code, taken from a row of the class that holds it. */
  lemma {:induction false} BlockCodesNonEmpty(rows: seq<Row>, cls: string)
    ensures forall b :: b in StudentBlocks(rows, cls) ==> b.code != ""
  {
    var items := Items(rows, cls);
    var sp := SpansOf(items, |rows|);
    SpansOfPartitions(items, |rows|);
    forall b | b in StudentBlocks(rows, cls)
      ensures b.code != ""
    {
      var t :| 0 <= t < |sp| && StudentBlocks(rows, cls)[t] == b;
      assert items[sp[t].first].kept;
    }
  }

  /** A row whose cell is non-empty lies in a block that shows its cell (in only one, by `Runs.OwnerUnique`). */
  lemma {:induction false} RowInBlock(rows: seq<Row>, cls: string, j: nat)
    requires j < |rows| && Subject(rows[j], cls) != ""
    ensures var sp := SpansOf(Items(rows, cls), |rows|);
      exists t :: Within(sp, t, j) && StudentBlocks(rows, cls)[t].code == Subject(rows[j], cls)
  {
    var items := Items(rows, cls);
    var sp := SpansOf(items, |rows|);
    SpansOfPartitions(items, |rows|);
    var t := OwnerTag(items, |rows|, sp, j);
    BlockCode(rows, cls, sp, t);
  }

  /** Block `t` shows the cell of its first row. */
  lemma {:induction false} BlockCode(rows: seq<Row>, cls: string, sp: seq<Span>, t: nat)
    requires forall u :: 0 <= u < |sp| ==> sp[u].first <= sp[u].last < |rows|
    requires t < |sp|
    ensures Blocks(rows, cls, sp)[t].code == Items(rows, cls)[sp[t].first].tag
  {
  }

  /** Two neighbouring blocks share a code only when the second starts at a break (an empty period). */
  lemma {:induction false} SameCodeOnlyAfterBreak(rows: seq<Row>, cls: string, t: nat)
    requires 0 < t < |StudentBlocks(rows, cls)|
    requires StudentBlocks(rows, cls)[t].code == StudentBlocks(rows, cls)[t - 1].code
    ensures StudentBlocks(rows, cls)[t].period == ""
  {
    var items := Items(rows, cls);
    var sp := SpansOf(items, |rows|);
    SpansOfPartitions(items, |rows|);
    assert Breaks(items, sp[t].first, sp[t - 1].first);
  }

  /**
   * A block ends when the next one begins whenever the row right after it has
   * a non-empty cell; when the day's last row has one, the last block ends
   * at "Selesai" with that row's period.
   */
  lemma {:induction false} BlockEnds(rows: seq<Row>, cls: string)
    ensures var sp := SpansOf(Items(rows, cls), |rows|);
      var b := StudentBlocks(rows, cls);
      forall t :: 0 <= t < |b| - 1 && Subject(rows[sp[t].last + 1], cls) != "" ==> b[t].endTime == b[t + 1].time
    ensures var b := StudentBlocks(rows, cls);
      rows != [] && Subject(rows[|rows| - 1], cls) != "" ==>
        b != [] && b[|b| - 1].endTime == LastEnd && b[|b| - 1].endPeriod == rows[|rows| - 1].period
  {
    BlockEndsNext(rows, cls);
    BlockEndsLast(rows, cls);
  }

  lemma {:induction false} BlockEndsNext(rows: seq<Row>, cls: string)
    ensures var sp := SpansOf(Items(rows, cls), |rows|);
      var b := StudentBlocks(rows, cls);
      forall t :: 0 <= t < |b| - 1 && Subject(rows[sp[t].last + 1], cls) != "" ==> b[t].endTime == b[t + 1].time
  {
    var items := Items(rows, cls);
    SpansOfPartitions(items, |rows|);
    BlocksMeet(rows, cls, items, SpansOf(items, |rows|));
  }

  lemma {:induction false} BlockEndsLast(rows: seq<Row>, cls: string)
    ensures var b := StudentBlocks(rows, cls);
      rows != [] && Subject(rows[|rows| - 1], cls) != "" ==>
        b != [] && b[|b| - 1].endTime == LastEnd && b[|b| - 1].endPeriod == rows[|rows| - 1].period
  {
    var items := Items(rows, cls);
    SpansOfPartitions(items, |rows|);
    BlocksLast(rows, cls, items, SpansOf(items, |rows|));
  }

  /** Over a partition, a block followed by a row with a non-empty cell ends when the next block starts. */
  lemma {:induction false} BlocksMeet(rows: seq<Row>, cls: string, items: seq<Item<string>>, sp: seq<Span>)
    requires items == Items(rows, cls) && |items| == |rows| && Partitions(items, |rows|, sp)
    ensures forall t :: 0 <= t < |sp| - 1 ==> sp[t].last + 1 < |rows|
    ensures forall t :: 0 <= t < |sp| - 1 && Subject(rows[sp[t].last + 1], cls) != "" ==>
      Blocks(rows, cls, sp)[t].endTime == Blocks(rows, cls, sp)[t + 1].time
  {
    var b := Blocks(rows, cls, sp);
    forall t | 0 <= t < |sp| - 1
      ensures sp[t].last + 1 < |rows|
    {
      assert sp[t].last < sp[t + 1].first <= sp[t + 1].last < |rows|;
    }
    forall t | 0 <= t < |sp| - 1 && Subject(rows[sp[t].last + 1], cls) != ""
      ensures b[t].endTime == b[t + 1].time
    {
      assert KeptAt(items, sp[t].last + 1);
      NextSpanStarts(items, |rows|, sp, t);
    }
  }

  /** Over a partition, when the last row has a non-empty cell the last block runs to the end of the day. */
  lemma {:induction false} BlocksLast(rows: seq<Row>, cls: string, items: seq<Item<string>>, sp: seq<Span>)
    requires items == Items(rows, cls) && |items| == |rows| && Partitions(items, |rows|, sp)
    ensures var b := Blocks(rows, cls, sp);
      rows != [] && Subject(rows[|rows| - 1], cls) != "" ==>
        b != [] && b[|b| - 1].endTime == LastEnd && b[|b| - 1].endPeriod == rows[|rows| - 1].period
  {
    if rows != [] && Subject(rows[|rows| - 1], cls) != "" {
      assert KeptAt(items, |rows| - 1);
      LastSpanEnds(items, |rows|, sp);
    }
  }

  /** Without data, or for a day the data does not reach, the view shows no blocks. */
  lemma {:induction false} NoDayNoBlocks(data: Option<seq<Row>>, day: string, cls: string)
    requires data.None? || IndexOf(Days, day) < 0 || IndexOf(Days, day) >= |SplitDays(data.value)|
    ensures StudentSchedule(data, day, cls) == []
  {
  }

  /**
   * Three lessons in a row: two periods of one subject merge into a block that
   * ends when the third starts, and a different third subject runs to the end
   * of the day.
   */
  lemma {:induction false} Example(r0: Row, r1: Row, r2: Row, cls: string)
    requires Subject(r0, cls) != "" && Subject(r1, cls) == Subject(r0, cls)
    requires Subject(r2, cls) != "" && Subject(r2, cls) != Subject(r0, cls)
    requires r0.period != "" && r1.period != "" && r2.period != ""
    ensures StudentBlocks([r0, r1, r2], cls)
      == [StudentBlock(r0.time, r0.period, Subject(r0, cls), r2.time, r1.period),
          StudentBlock(r2.time, r2.period, Subject(r2, cls), LastEnd, r2.period)]
  {
    var rows := [r0, r1, r2];
    var items := Items(rows, cls);
    assert items[0].kept && items[1].kept && items[2].kept;
    assert !Breaks(items, 1, 0) && Breaks(items, 2, 0);
    ExampleSpans(items);
    ExampleBlocks(rows, cls);
  }

  /** Three kept items where only the third breaks the run: two spans. */
  lemma {:induction false} ExampleSpans<L>(items: seq<Item<L>>)
    requires |items| == 3 && items[0].kept && items[1].kept && items[2].kept
    requires !Breaks(items, 1, 0) && Breaks(items, 2, 0)
    ensures SpansOf(items, 3) == [Span(0, 1), Span(2, 2)]
  {
    assert SpansOf(items, 1) == [Span(0, 0)];
    assert SpansOf(items, 2) == [Span(0, 1)];
  }

  lemma {:induction false} ExampleBlocks(rows: seq<Row>, cls: string)
    requires |rows| == 3
    ensures Blocks(rows, cls, [Span(0, 1), Span(2, 2)])
      == [StudentBlock(rows[0].time, rows[0].period, Subject(rows[0], cls), rows[2].time, rows[1].period),
          StudentBlock(rows[2].time, rows[2].period, Subject(rows[2], cls), LastEnd, rows[2].period)]
  {
    assert EndTimeAfter(rows, 1, LastEnd) == rows[2].time;
    assert EndTimeAfter(rows, 2, LastEnd) == LastEnd;
  }
}
