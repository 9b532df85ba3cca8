/**
 * The legacy viewer: one class letter's timetable for one day. Every slot of
 * the day takes part (empty cells included); consecutive slots with the same
 * `Class_<letter>` value merge unless the later slot's period is empty. A
 * block is its first slot's row extended with an end time and end period.
 */
module ScheduleViewer {
  import opened Base
  import opened Runs
  import opened DaySplit
  import opened Text
  import opened Shortcuts

  /** The class letters of the viewer. */
  const Classes: seq<string> := ["A", "B", "C", "D", "E", "F", "G", "H", "I", "J"]

  /** The end time shown after the day's last slot. */
  const LastEnd: string := "Selesai"

  /** A block: the first slot's row with every field copied, plus where the block ends. */
  datatype CombinedRow = CombinedRow(row: Row, endTime: string, endPeriod: string)

  /** The slot's `Class_<letter>` field; `None` is `undefined`. */
  function ClassCell(row: Row, cls: string): Option<string>
  {
    CellValue(row.cells, "Class_" + cls)
  }

  /** Each slot seen by the grouping: tagged by its class field, always kept, breaking when its period is empty. */
  function Items(rows: seq<Row>, cls: string): (r: seq<Item<Option<string>>>)
    ensures |r| == |rows|
    ensures forall i :: 0 <= i < |rows| ==> r[i] == Item(ClassCell(rows[i], cls), true, rows[i].period == "")
  {
    seq(|rows|, i requires 0 <= i < |rows| => Item(ClassCell(rows[i], cls), true, rows[i].period == ""))
  }

  function BlockOf(rows: seq<Row>, sp: Span): CombinedRow
    requires sp.first <= sp.last < |rows|
  {
    CombinedRow(rows[sp.first], EndTimeAfter(rows, sp.last, LastEnd), rows[sp.last].period)
  }

  function Blocks(rows: seq<Row>, sps: seq<Span>): (r: seq<CombinedRow>)
    requires forall t :: 0 <= t < |sps| ==> sps[t].first <= sps[t].last < |rows|
    ensures |r| == |sps| && forall t :: 0 <= t < |sps| ==> r[t] == BlockOf(rows, sps[t])
  {
    seq(|sps|, t requires 0 <= t < |sps| => BlockOf(rows, sps[t]))
  }

  /** The blocks of one day's slots. */
  function CombinedBlocks(rows: seq<Row>, cls: string): seq<CombinedRow>
  {
    Blocks(rows, SpansOf(Items(rows, cls), |rows|))
  }

  /**
   * What the viewer shows. The selected day must exist in the data: for a day
   * name outside the week, or one the data does not reach, the viewer hands
   * `undefined` to the merging pass, which throws.
   */
  function CombinedSchedule(data: Option<seq<Row>>, day: string, cls: string): seq<CombinedRow>
    requires data.Some? ==> 0 <= IndexOf(Days, day) < |SplitDays(data.value)|
  {
    match data
    case None => []
    case Some(rows) => CombinedBlocks(SplitDays(rows)[IndexOf(Days, day)], cls)
  }

  /**
   * `splitSchedules`: every "06:30" slot first closes the current day when it
   * holds slots and starts a fresh one; every slot then joins the current day.
   */
  method SplitSchedules(data: seq<Row>) returns (result: seq<seq<Row>>)
    ensures result == SplitDays(data)
  {
    result := [];
    var currentDay: seq<Row> := [];
    for i := 0 to |data|
      invariant currentDay == [] ==> result == []
      invariant Closed(result, currentDay) == SplitDays(data[..i])
    {
      var item := data[i];
      assert data[..i + 1] == data[..i] + [item];
      ClosedStep(data[..i], result, currentDay, item);
      if item.time == Sentinel {
        if |currentDay| > 0 {
          result := result + [currentDay];
        }
        currentDay := [];
      }
      currentDay := currentDay + [item];
    }
    assert data[..|data|] == data;
    if |currentDay| > 0 {
      result := result + [currentDay];
    }
  }

  function WithOpen(combined: seq<CombinedRow>, current: Option<CombinedRow>): seq<CombinedRow>
  {
    match current
    case None => combined
    case Some(c) => combined + [c]
  }

  /** The loop invariant of the merging pass after `i` slots. */
  ghost predicate Merged(rows: seq<Row>, cls: string, i: nat, combined: seq<CombinedRow>, current: Option<CombinedRow>)
    requires i <= |rows|
  {
    var sps := SpansOf(Items(rows, cls), i);
    && (current.None? <==> sps == [])
    && (current.None? ==> combined == [])
    && WithOpen(combined, current) == Blocks(rows, sps)
  }

  lemma {:induction false} OpenStep(rows: seq<Row>, cls: string, i: nat, combined: seq<CombinedRow>, current: Option<CombinedRow>)
    requires i < |rows| && Merged(rows, cls, i, combined, current)
    requires current.None? || ClassCell(rows[i], cls) != ClassCell(current.value.row, cls) || rows[i].period == ""
    ensures Merged(rows, cls, i + 1, WithOpen(combined, current),
                   Some(CombinedRow(rows[i], EndTimeAfter(rows, i, LastEnd), rows[i].period)))
  {
    var items := Items(rows, cls);
    var prev := SpansOf(items, i);
    if current.Some? {
      assert current.value == BlockOf(rows, prev[|prev| - 1]);
    }
    assert SpansOf(items, i + 1) == prev + [Span(i, i)];
  }

  lemma {:induction false} ExtendStep(rows: seq<Row>, cls: string, i: nat, combined: seq<CombinedRow>, current: Option<CombinedRow>)
    requires i < |rows| && Merged(rows, cls, i, combined, current) && current.Some?
    requires ClassCell(rows[i], cls) == ClassCell(current.value.row, cls) && rows[i].period != ""
    ensures Merged(rows, cls, i + 1, combined,
                   Some(current.value.(endTime := EndTimeAfter(rows, i, LastEnd), endPeriod := rows[i].period)))
  {
    var prev := SpansOf(Items(rows, cls), i);
    var n := |prev| - 1;
    MergedOpen(rows, cls, i, combined, current);
    SameTagExtends(rows, cls, i, prev[n].first);
    BlocksReplaceLast(rows, prev, Span(prev[n].first, i));
  }

  /** With a block open, it is the last span's block and the closed blocks are the others. */
  lemma {:induction false} MergedOpen(rows: seq<Row>, cls: string, i: nat, combined: seq<CombinedRow>, current: Option<CombinedRow>)
    requires i <= |rows| && Merged(rows, cls, i, combined, current) && current.Some?
    ensures var sps := SpansOf(Items(rows, cls), i);
      sps != [] && current.value == BlockOf(rows, sps[|sps| - 1]) && combined == Blocks(rows, sps)[..|sps| - 1]
  {
    OpenIsLast(rows, SpansOf(Items(rows, cls), i), combined, current.value);
  }

  lemma {:induction false} OpenIsLast(rows: seq<Row>, sps: seq<Span>, combined: seq<CombinedRow>, c: CombinedRow)
    requires forall t :: 0 <= t < |sps| ==> sps[t].first <= sps[t].last < |rows|
    requires Blocks(rows, sps) == combined + [c]
    ensures sps != [] && c == BlockOf(rows, sps[|sps| - 1]) && combined == Blocks(rows, sps)[..|sps| - 1]
  {
    var n := |sps| - 1;
    assert Blocks(rows, sps)[n] == c;
    assert Blocks(rows, sps)[..n] == combined;
  }

  /** A slot with the open block's class value and a non-empty period extends its span. */
  lemma {:induction false} SameTagExtends(rows: seq<Row>, cls: string, i: nat, f: nat)
    requires f < i < |rows|
    requires var sps := SpansOf(Items(rows, cls), i); sps != [] && sps[|sps| - 1].first == f
    requires ClassCell(rows[i], cls) == ClassCell(rows[f], cls) && rows[i].period != ""
    ensures var sps := SpansOf(Items(rows, cls), i);
      SpansOf(Items(rows, cls), i + 1) == sps[..|sps| - 1] + [Span(f, i)]
  {
    assert !Breaks(Items(rows, cls), i, f);
  }

  lemma {:induction false} BlocksReplaceLast(rows: seq<Row>, sps: seq<Span>, x: Span)
    requires sps != [] && x.first <= x.last < |rows|
    requires forall t :: 0 <= t < |sps| ==> sps[t].first <= sps[t].last < |rows|
    ensures Blocks(rows, sps[..|sps| - 1] + [x]) == Blocks(rows, sps)[..|sps| - 1] + [BlockOf(rows, x)]
  {
  }

  /** `combineSchedule`: one pass over the day's slots, opening or extending the current block. */
  method CombineSchedule(schedule: seq<Row>, selectedClass: string) returns (combined: seq<CombinedRow>)
    ensures combined == CombinedBlocks(schedule, selectedClass)
  {
    combined := [];
    var current: Option<CombinedRow> := None;
    for i := 0 to |schedule|
      invariant Merged(schedule, selectedClass, i, combined, current)
    {
      combined, current := MergeSlot(schedule, selectedClass, i, combined, current);
    }
    assert WithOpen(combined, current) == CombinedBlocks(schedule, selectedClass);
    if current.Some? {
      combined := combined + [current.value];
    }
  }

  /** The body of the pass for slot `i`: close the open block and open one, or extend the open block. */
  method MergeSlot(schedule: seq<Row>, selectedClass: string, i: nat, combined: seq<CombinedRow>, current: Option<CombinedRow>)
    returns (combined': seq<CombinedRow>, current': Option<CombinedRow>)
    requires i < |schedule| && Merged(schedule, selectedClass, i, combined, current)
    ensures Merged(schedule, selectedClass, i + 1, combined', current')
  {
    var row := schedule[i];
    var endTime := if i < |schedule| - 1 then schedule[i + 1].time else LastEnd;
    assert endTime == EndTimeAfter(schedule, i, LastEnd);
    if current.None? || ClassCell(row, selectedClass) != ClassCell(current.value.row, selectedClass) || row.period == "" {
      OpenStep(schedule, selectedClass, i, combined, current);
      combined' := combined;
      if current.Some? {
        combined' := combined + [current.value];
      }
      current' := Some(CombinedRow(row, endTime, row.period));
    } else {
      ExtendStep(schedule, selectedClass, i, combined, current);
      combined' := combined;
      current' := Some(current.value.(endTime := endTime, endPeriod := row.period));
    }
  }

  /** The `combinedSchedule` memo: nothing without data, else the selected day's blocks. */
  method ComputeCombinedSchedule(scheduleData: Option<seq<Row>>, selectedDay: string, selectedClass: string)
    returns (result: seq<CombinedRow>)
    requires scheduleData.Some? ==> 0 <= IndexOf(Days, selectedDay) < |SplitDays(scheduleData.value)|
    ensures result == CombinedSchedule(scheduleData, selectedDay, selectedClass)
  {
    if scheduleData.None? {
      return [];
    }
    var days := SplitSchedules(scheduleData.value);
    var filteredSchedule := days[IndexOf(Days, selectedDay)];
    result := CombineSchedule(filteredSchedule, selectedClass);
  }

  /** The blocks are those of the one partition of the day's slots into maximal runs. */
  lemma {:induction false} CombinedBlocksArePartitionBlocks(rows: seq<Row>, cls: string, sp: seq<Span>)
    requires Partitions(Items(rows, cls), |rows|, sp)
    ensures CombinedBlocks(rows, cls) == Blocks(rows, sp)
  {
    PartitionsUnique(Items(rows, cls), |rows|, sp);
  }

  /**
   * Every slot of the day lies in a block: the blocks tile the day, the first
   * copies the first slot, each ends when the next starts, the last ends at
   * "Selesai"; and a block that starts with an unchanged class value starts at
   * an empty period.
   */
  lemma {:induction false} CombinedBlocksTile(rows: seq<Row>, cls: string)
    ensures var b := CombinedBlocks(rows, cls);
      (b == [] <==> rows == [])
      && (b != [] ==> b[0].row == rows[0] && b[|b| - 1].endTime == LastEnd
                      && b[|b| - 1].endPeriod == rows[|rows| - 1].period)
      && (forall t :: 0 <= t < |b| - 1 ==> b[t].endTime == b[t + 1].row.time)
      && (forall t :: 0 <= t < |b| - 1 && ClassCell(b[t].row, cls) == ClassCell(b[t + 1].row, cls) ==>
            b[t + 1].row.period == "")
  {
    var items := Items(rows, cls);
    var sp := SpansOf(items, |rows|);
    SpansOfPartitions(items, |rows|);
    Tiles(items, |rows|, sp);
    BlocksEnds(rows, sp);
    BlocksMeet(rows, sp);
    BlocksBreak(rows, cls, items, sp);
  }

  lemma {:induction false} BlocksEnds(rows: seq<Row>, sp: seq<Span>)
    requires forall t :: 0 <= t < |sp| ==> sp[t].first <= sp[t].last < |rows|
    requires sp == [] <==> rows == []
    requires sp != [] ==> sp[0].first == 0 && sp[|sp| - 1].last == |rows| - 1
    ensures var b := Blocks(rows, sp);
      (b == [] <==> rows == [])
      && (b != [] ==> b[0].row == rows[0] && b[|b| - 1].endTime == LastEnd
                      && b[|b| - 1].endPeriod == rows[|rows| - 1].period)
  {
  }

  lemma {:induction false} BlocksMeet(rows: seq<Row>, sp: seq<Span>)
    requires forall t :: 0 <= t < |sp| ==> sp[t].first <= sp[t].last < |rows|
    requires forall t :: 0 <= t < |sp| - 1 ==> sp[t + 1].first == sp[t].last + 1
    ensures var b := Blocks(rows, sp);
      forall t :: 0 <= t < |b| - 1 ==> b[t].endTime == b[t + 1].row.time
  {
    var b := Blocks(rows, sp);
    forall t | 0 <= t < |b| - 1
      ensures b[t].endTime == b[t + 1].row.time
    {
      assert sp[t + 1].first == sp[t].last + 1;
    }
  }

  lemma {:induction false} BlocksBreak(rows: seq<Row>, cls: string, items: seq<Item<Option<string>>>, sp: seq<Span>)
    requires |items| == |rows|
    requires forall i :: 0 <= i < |rows| ==> items[i] == Item(ClassCell(rows[i], cls), true, rows[i].period == "")
    requires forall t :: 0 <= t < |sp| ==> sp[t].first <= sp[t].last < |rows|
    requires forall t :: 0 <= t < |sp| - 1 && !items[sp[t + 1].first].hard ==>
      items[sp[t + 1].first].tag != items[sp[t].first].tag
    ensures var b := Blocks(rows, sp);
      forall t :: 0 <= t < |b| - 1 && ClassCell(b[t].row, cls) == ClassCell(b[t + 1].row, cls) ==>
        b[t + 1].row.period == ""
  {
    var b := Blocks(rows, sp);
    forall t | 0 <= t < |b| - 1 && ClassCell(b[t].row, cls) == ClassCell(b[t + 1].row, cls)
      ensures b[t + 1].row.period == ""
    {
      assert items[sp[t + 1].first].tag == items[sp[t].first].tag;
    }
  }

  /** The viewer's selection: a day name and a class letter. */
  datatype Selection = Selection(day: string, cls: string)

  /**
   * `toUpperCase` as far as it decides membership in `Classes`: the ASCII
   * letters, and the dotless `ı`, whose upper case is `I`.
   */
  function KeyUpper(key: string): string
  {
    if key == "ı" then "I" else Upper(key)
  }

  /** The key handler: a key from "1" to "5" selects that weekday, a class letter selects that class. */
  function HandleKeyPress(key: string, s: Selection): Selection
  {
    var s' :=
      match DigitKeyIndex(key, |Days|)
      case Some(index) => s.(day := Days[index])
      case None => s;
    var classIndex := IndexOf(Classes, KeyUpper(key));
    if classIndex != -1 then s'.(cls := Classes[classIndex]) else s'
  }

  /** The classes are the single capital letters from A to J. */
  lemma {:induction false} ClassesAreLetters(key: string)
    ensures key in Classes <==> |key| == 1 && 'A' <= key[0] <= 'J'
  {
    if |key| == 1 && 'A' <= key[0] <= 'J' {
      assert key == [key[0]];
      assert key == Classes[key[0] as int - 'A' as int];
    }
  }

  /** Keys "1" to "5" select Monday to Friday and keep the class. */
  lemma {:induction false} DigitKeySelectsDay(d: nat, s: Selection)
    requires 1 <= d <= 5
    ensures HandleKeyPress([DigitChar(d)], s) == s.(day := Days[d - 1])
  {
    DigitKeyPicks(d, |Days|);
    DigitKeyNamesNoClass(d);
  }

  /** A digit key, upper-cased, is not a class name. */
  lemma {:induction false} DigitKeyNamesNoClass(d: nat)
    requires 1 <= d <= 5
    ensures IndexOf(Classes, KeyUpper([DigitChar(d)])) == -1
  {
    var key := [DigitChar(d)];
    assert key[0] < 'A';
    assert key != "ı";
    assert Upper(key) == key;
    ClassesAreLetters(key);
  }

  /** A letter from a to j, in either case, selects that class and keeps the day. */
  lemma {:induction false} LetterKeySelectsClass(c: char, s: Selection)
    requires 'a' <= c <= 'j' || 'A' <= c <= 'J'
    ensures HandleKeyPress([c], s) == s.(cls := [UpperChar(c)])
  {
    var key := [c];
    assert !InDigitRange(key);
    assert KeyUpper(key) == [UpperChar(c)];
    ClassesAreLetters([UpperChar(c)]);
  }

  /** Any other single key changes nothing. */
  lemma {:induction false} OtherKeyKeepsSelection(c: char, s: Selection)
    requires !('1' <= c <= '5') && !('a' <= c <= 'j') && !('A' <= c <= 'J') && c != 'ı'
    ensures HandleKeyPress([c], s) == s
  {
    var key := [c];
    assert !InDigitRange(key);
    assert KeyUpper(key) == [UpperChar(c)];
    ClassesAreLetters([UpperChar(c)]);
  }
}
