/**
 * The teacher view: for one teacher (a list of codes) and one day, each slot is
 * tagged with the class the teacher teaches in it, or marked as a gap; runs of
 * slots with the same class and code, gaps included, are merged into blocks,
 * and gap blocks are dropped at the end.
 */
module TeacherSchedule {
  import opened Base
  import opened Runs
  import opened DaySplit

  /** A slot tagged with the class (column) and code the teacher has in it; `None` for both in a gap. */
  datatype TaggedRow = TaggedRow(row: Row, className: Option<string>, code: Option<string>)

  datatype TeacherBlock = TeacherBlock(className: Option<string>, code: Option<string>, time: string, period: string,
                                       endTime: string, endPeriod: string)

  /** The end time shown after the day's last slot. */
  const LastEnd: string := "15:00"

  /** A cell names the teacher: it is not the time or period field and holds one of the codes. */
  predicate Matches(c: Cell, codes: seq<string>)
  {
    c.column != "time" && c.column != "period" && c.value in codes
  }

  /** The first matching cell in column order. */
  function FindMatch(cells: seq<Cell>, codes: seq<string>): (r: Option<Cell>)
    ensures r.None? <==> forall i :: 0 <= i < |cells| ==> !Matches(cells[i], codes)
    ensures r.Some? ==> exists i :: 0 <= i < |cells| && cells[i] == r.value && Matches(cells[i], codes)
                                    && forall j :: 0 <= j < i ==> !Matches(cells[j], codes)
  {
    if cells == [] then None
    else if Matches(cells[0], codes) then Some(cells[0])
    else
      var r := FindMatch(cells[1..], codes);
      assert forall i :: 0 < i < |cells| ==> cells[i] == cells[1..][i - 1];
      r
  }

  /** The slot tagged for the teacher. */
  function Tag(row: Row, codes: seq<string>): TaggedRow
  {
    match FindMatch(row.cells, codes)
    case Some(c) => TaggedRow(row, Some(c.column), Some(c.value))
    case None => TaggedRow(row, None, None)
  }

  /** The teacher tagging of every slot, in order. */
  function TagRows(rows: seq<Row>, codes: seq<string>): (r: seq<TaggedRow>)
    ensures |r| == |rows| && forall i :: 0 <= i < |rows| ==> r[i] == Tag(rows[i], codes)
  {
    seq(|rows|, i requires 0 <= i < |rows| => Tag(rows[i], codes))
  }

  /** Each slot seen by the grouping: tagged by class and code, always kept, never forcing a break. */
  function Items(rows: seq<Row>, codes: seq<string>): (r: seq<Item<(Option<string>, Option<string>)>>)
    ensures |r| == |rows|
    ensures forall i {:trigger r[i]} :: 0 <= i < |rows| ==>
      r[i] == Item((Tag(rows[i], codes).className, Tag(rows[i], codes).code), true, false)
  {
    seq(|rows|, i requires 0 <= i < |rows| => Item((Tag(rows[i], codes).className, Tag(rows[i], codes).code), true, false))
  }

  /** The block covering slots `sp.first` to `sp.last`. */
  function BlockOf(rows: seq<Row>, codes: seq<string>, sp: Span): TeacherBlock
    requires sp.first <= sp.last < |rows|
  {
    var first := Tag(rows[sp.first], codes);
    TeacherBlock(first.className, first.code, rows[sp.first].time, rows[sp.first].period,
                 EndTimeAfter(rows, sp.last, LastEnd), rows[sp.last].period)
  }

  function Blocks(rows: seq<Row>, codes: seq<string>, sps: seq<Span>): (r: seq<TeacherBlock>)
    requires forall t :: 0 <= t < |sps| ==> sps[t].first <= sps[t].last < |rows|
    ensures |r| == |sps| && forall t :: 0 <= t < |sps| ==> r[t] == BlockOf(rows, codes, sps[t])
  {
    seq(|sps|, t requires 0 <= t < |sps| => BlockOf(rows, codes, sps[t]))
  }

  /** The merged blocks of one day, gaps included. */
  function TeacherBlocks(rows: seq<Row>, codes: seq<string>): seq<TeacherBlock>
  {
    Blocks(rows, codes, SpansOf(Items(rows, codes), |rows|))
  }

  /** A block the teacher teaches: both its code and its class are non-empty strings. */
  predicate IsLesson(b: TeacherBlock)
  {
    b.code.Some? && b.code.value != "" && b.className.Some? && b.className.value != ""
  }

  /** The lessons among `blocks`, in order. */
  function Prune(blocks: seq<TeacherBlock>): (r: seq<TeacherBlock>)
    ensures |r| <= |blocks|
    ensures forall b :: b in r <==> b in blocks && IsLesson(b)
  {
    if blocks == [] then []
    else (if IsLesson(blocks[0]) then [blocks[0]] else []) + Prune(blocks[1..])
  }

  /** `filter` keeps the lessons in their order and with their repeats. */
  lemma {:induction false} PruneIsFilter(blocks: seq<TeacherBlock>)
    ensures Prune(blocks) == Filter(blocks, IsLesson)
  {
    if blocks != [] {
      var head, tail := blocks[0], blocks[1..];
      PruneIsFilter(tail);
      assert blocks == [head] + tail;
      FilterAppend([head], tail, IsLesson);
      FilterSingle(head, IsLesson);
      assert Prune(blocks) == (if IsLesson(head) then [head] else []) + Prune(tail);
    }
  }

  /** What the view shows: nothing without data or codes, else the lessons of the selected day. */
  function TeacherSchedule(data: Option<seq<Row>>, day: string, codes: seq<string>): seq<TeacherBlock>
  {
    if data.None? || codes == [] then []
    else Prune(TeacherBlocks(DayRows(SplitDays(data.value), day), codes))
  }

  function WithOpen(combined: seq<TeacherBlock>, block: Option<TeacherBlock>): seq<TeacherBlock>
  {
    match block
    case None => combined
    case Some(b) => combined + [b]
  }

  /** The loop invariant of the merging pass after `i` slots. */
  ghost predicate Merged(rows: seq<Row>, codes: seq<string>, i: nat, combined: seq<TeacherBlock>, block: Option<TeacherBlock>)
    requires i <= |rows|
  {
    var sps := SpansOf(Items(rows, codes), i);
    && (block.None? <==> sps == [])
    && (block.None? ==> combined == [])
    && WithOpen(combined, block) == Blocks(rows, codes, sps)
  }

  /** A slot whose class or code differs from the open block's closes it and opens its own. */
  lemma {:induction false} OpenStep(rows: seq<Row>, codes: seq<string>, i: nat, combined: seq<TeacherBlock>, block: Option<TeacherBlock>)
    requires i < |rows| && Merged(rows, codes, i, combined, block)
    requires var curr := Tag(rows[i], codes);
      block.None? || curr.code != block.value.code || curr.className != block.value.className
    ensures var curr := Tag(rows[i], codes);
      Merged(rows, codes, i + 1, WithOpen(combined, block),
        Some(TeacherBlock(curr.className, curr.code, rows[i].time, rows[i].period, EndTimeAfter(rows, i, LastEnd), rows[i].period)))
  {
    var items := Items(rows, codes);
    var prev := SpansOf(items, i);
    if block.Some? {
      assert block.value == BlockOf(rows, codes, prev[|prev| - 1]);
    }
    assert SpansOf(items, i + 1) == prev + [Span(i, i)];
  }

  /** A slot with the open block's class and code becomes its last member. */
  lemma {:induction false} ExtendStep(rows: seq<Row>, codes: seq<string>, i: nat, combined: seq<TeacherBlock>, c: TeacherBlock)
    requires i < |rows| && Merged(rows, codes, i, combined, Some(c))
    requires Tag(rows[i], codes).code == c.code && Tag(rows[i], codes).className == c.className
    ensures Merged(rows, codes, i + 1, combined,
      Some(c.(endTime := EndTimeAfter(rows, i, LastEnd), endPeriod := rows[i].period)))
  {
    ExtendSpans(rows, codes, i, combined, c);
    ExtendClose(rows, codes, i, combined, c);
  }

  /** From the extended spans, the state after the slot with the open block extended. */
  lemma {:induction false} ExtendClose(rows: seq<Row>, codes: seq<string>, i: nat, combined: seq<TeacherBlock>, c: TeacherBlock)
    requires i < |rows|
    requires var prev := SpansOf(Items(rows, codes), i);
      prev != [] && c == BlockOf(rows, codes, prev[|prev| - 1]) && combined == Blocks(rows, codes, prev)[..|prev| - 1]
      && SpansOf(Items(rows, codes), i + 1) == prev[..|prev| - 1] + [Span(prev[|prev| - 1].first, i)]
    ensures Merged(rows, codes, i + 1, combined,
      Some(c.(endTime := EndTimeAfter(rows, i, LastEnd), endPeriod := rows[i].period)))
  {
    var prev := SpansOf(Items(rows, codes), i);
    ExtendAssemble(rows, codes, prev, SpansOf(Items(rows, codes), i + 1), combined, c, i);
    MergedOf(rows, codes, i + 1, combined, c.(endTime := EndTimeAfter(rows, i, LastEnd), endPeriod := rows[i].period));
  }

  /** The spans after a slot that extends the open block: the last span now ends at that slot. */
  lemma {:induction false} ExtendSpans(rows: seq<Row>, codes: seq<string>, i: nat, combined: seq<TeacherBlock>, c: TeacherBlock)
    requires i < |rows| && Merged(rows, codes, i, combined, Some(c))
    requires Tag(rows[i], codes).code == c.code && Tag(rows[i], codes).className == c.className
    ensures var prev := SpansOf(Items(rows, codes), i);
      prev != [] && c == BlockOf(rows, codes, prev[|prev| - 1]) && combined == Blocks(rows, codes, prev)[..|prev| - 1]
      && SpansOf(Items(rows, codes), i + 1) == prev[..|prev| - 1] + [Span(prev[|prev| - 1].first, i)]
  {
    var prev := SpansOf(Items(rows, codes), i);
    MergedOpen(rows, codes, i, combined, c);
    var n := |prev| - 1;
    BlockTag(rows, codes, prev[n], c);
    SameTagExtends(rows, codes, i, prev[n].first);
  }

  /** With a block open, the spans so far end in its span and the closed blocks are the others. */
  lemma {:induction false} MergedOpen(rows: seq<Row>, codes: seq<string>, i: nat, combined: seq<TeacherBlock>, b: TeacherBlock)
    requires i <= |rows| && Merged(rows, codes, i, combined, Some(b))
    ensures var sps := SpansOf(Items(rows, codes), i);
      sps != [] && b == BlockOf(rows, codes, sps[|sps| - 1]) && combined == Blocks(rows, codes, sps)[..|sps| - 1]
  {
    OpenIsLast(rows, codes, SpansOf(Items(rows, codes), i), combined, b);
  }

  /** The state after slot `i` with a block open, from the blocks of the spans so far. */
  lemma {:induction false} MergedOf(rows: seq<Row>, codes: seq<string>, i: nat, combined: seq<TeacherBlock>, b: TeacherBlock)
    requires i <= |rows|
    requires var sps := SpansOf(Items(rows, codes), i); sps != [] && Blocks(rows, codes, sps) == combined + [b]
    ensures Merged(rows, codes, i, combined, Some(b))
  {
  }

  /** The open block extended to slot `i` is the last block of the extended spans. */
  lemma {:induction false} ExtendAssemble(rows: seq<Row>, codes: seq<string>, prev: seq<Span>, next: seq<Span>,
                       combined: seq<TeacherBlock>, b: TeacherBlock, i: nat)
    requires i < |rows| && prev != []
    requires forall t :: 0 <= t < |prev| ==> prev[t].first <= prev[t].last < i
    requires b == BlockOf(rows, codes, prev[|prev| - 1]) && combined == Blocks(rows, codes, prev)[..|prev| - 1]
    requires next == prev[..|prev| - 1] + [Span(prev[|prev| - 1].first, i)]
    ensures next != [] && forall t :: 0 <= t < |next| ==> next[t].first <= next[t].last < |rows|
    ensures Blocks(rows, codes, next) == combined + [b.(endTime := EndTimeAfter(rows, i, LastEnd), endPeriod := rows[i].period)]
  {
    var n := |prev| - 1;
    BlocksReplaceLast(rows, codes, prev, Span(prev[n].first, i));
    BlockExtended(rows, codes, prev[n], i, b);
  }

  /** A block carries the class and code of its first slot. */
  lemma {:induction false} BlockTag(rows: seq<Row>, codes: seq<string>, sp: Span, b: TeacherBlock)
    requires sp.first <= sp.last < |rows| && b == BlockOf(rows, codes, sp)
    ensures b.code == Tag(rows[sp.first], codes).code && b.className == Tag(rows[sp.first], codes).className
  {
  }

  /** Extending a block to slot `i` moves its end to that slot and keeps its start. */
  lemma {:induction false} BlockExtended(rows: seq<Row>, codes: seq<string>, sp: Span, i: nat, b: TeacherBlock)
    requires sp.first <= sp.last < i < |rows| && b == BlockOf(rows, codes, sp)
    ensures b.(endTime := EndTimeAfter(rows, i, LastEnd), endPeriod := rows[i].period) == BlockOf(rows, codes, Span(sp.first, i))
  {
  }

  lemma {:induction false} OpenIsLast(rows: seq<Row>, codes: seq<string>, sps: seq<Span>, combined: seq<TeacherBlock>, b: TeacherBlock)
    requires forall t :: 0 <= t < |sps| ==> sps[t].first <= sps[t].last < |rows|
    requires Blocks(rows, codes, sps) == combined + [b]
    ensures sps != [] && b == BlockOf(rows, codes, sps[|sps| - 1]) && combined == Blocks(rows, codes, sps)[..|sps| - 1]
  {
    var n := |sps| - 1;
    assert Blocks(rows, codes, sps)[n] == b;
    assert Blocks(rows, codes, sps)[..n] == combined;
  }

  /** A slot tagged like the open block's first slot extends its span. */
  lemma {:induction false} SameTagExtends(rows: seq<Row>, codes: seq<string>, i: nat, f: nat)
    requires f < i < |rows|
    requires var sps := SpansOf(Items(rows, codes), i); sps != [] && sps[|sps| - 1].first == f
    requires Tag(rows[i], codes).code == Tag(rows[f], codes).code
    requires Tag(rows[i], codes).className == Tag(rows[f], codes).className
    ensures var sps := SpansOf(Items(rows, codes), i);
      SpansOf(Items(rows, codes), i + 1) == sps[..|sps| - 1] + [Span(f, i)]
  {
    assert !Breaks(Items(rows, codes), i, f);
  }

  lemma {:induction false} BlocksReplaceLast(rows: seq<Row>, codes: seq<string>, sps: seq<Span>, x: Span)
    requires sps != [] && x.first <= x.last < |rows|
    requires forall t :: 0 <= t < |sps| ==> sps[t].first <= sps[t].last < |rows|
    ensures Blocks(rows, codes, sps[..|sps| - 1] + [x]) == Blocks(rows, codes, sps)[..|sps| - 1] + [BlockOf(rows, codes, x)]
  {
  }

  /**
   * `useTeacherSchedule`: split the data into days, tag the selected day's
   * slots, merge runs of equal tags in one pass, and drop the gap blocks.
   */
  method UseTeacherSchedule(scheduleData: Option<seq<Row>>, selectedDay: string, teacherCodes: seq<string>)
    returns (result: seq<TeacherBlock>)
    ensures result == TeacherSchedule(scheduleData, selectedDay, teacherCodes)
  {
    if scheduleData.None? || |teacherCodes| == 0 {
      return [];
    }
    var daysSchedules := SplitIntoDays(scheduleData.value);
    var todayRows := DayRows(daysSchedules, selectedDay);
    var teacherBlocks := TagRows(todayRows, teacherCodes);
    var combined: seq<TeacherBlock> := [];
    var block: Option<TeacherBlock> := None;
    for i := 0 to |teacherBlocks|
      invariant Merged(todayRows, teacherCodes, i, combined, block)
    {
      var curr := teacherBlocks[i];
      var endTime := if i + 1 < |teacherBlocks| then teacherBlocks[i + 1].row.time else LastEnd;
      if block.None? || curr.code != block.value.code || curr.className != block.value.className {
        OpenStep(todayRows, teacherCodes, i, combined, block);
        if block.Some? {
          combined := combined + [block.value];
        }
        block := Some(TeacherBlock(curr.className, curr.code, curr.row.time, curr.row.period, endTime, curr.row.period));
      } else {
        ExtendStep(todayRows, teacherCodes, i, combined, block.value);
        block := Some(block.value.(endTime := endTime, endPeriod := curr.row.period));
      }
    }
    if block.Some? {
      combined := combined + [block.value];
    }
    result := Prune(combined);
  }

  /** The merged blocks are those of the one partition of the slots into maximal runs of one class and code. */
  lemma {:induction false} TeacherBlocksArePartitionBlocks(rows: seq<Row>, codes: seq<string>, sp: seq<Span>)
    requires Partitions(Items(rows, codes), |rows|, sp)
    ensures TeacherBlocks(rows, codes) == Blocks(rows, codes, sp)
  {
    PartitionsUnique(Items(rows, codes), |rows|, sp);
  }

  /**
   * Before pruning, the blocks tile the day: the first starts at the first
   * slot, each ends when the next starts, the last ends at "15:00" with the
   * last slot's period, and neighbouring blocks differ in class or code, so
   * a gap always separates two runs of lessons.
   */
  lemma {:induction false} TeacherBlocksTile(rows: seq<Row>, codes: seq<string>)
    ensures var b := TeacherBlocks(rows, codes);
      (b == [] <==> rows == [])
      && (b != [] ==> b[0].time == rows[0].time && b[|b| - 1].endTime == LastEnd
                      && b[|b| - 1].endPeriod == rows[|rows| - 1].period)
      && (forall t :: 0 <= t < |b| - 1 ==> b[t].endTime == b[t + 1].time)
      && (forall t :: 0 <= t < |b| - 1 ==> (b[t].className, b[t].code) != (b[t + 1].className, b[t + 1].code))
  {
    var items := Items(rows, codes);
    var sp := SpansOf(items, |rows|);
    SpansOfPartitions(items, |rows|);
    Tiles(items, |rows|, sp);
    BlocksEnds(rows, codes, sp);
    BlocksMeet(rows, codes, sp);
    BlocksDiffer(rows, codes, items, sp);
  }

  lemma {:induction false} BlocksEnds(rows: seq<Row>, codes: seq<string>, sp: seq<Span>)
    requires forall t :: 0 <= t < |sp| ==> sp[t].first <= sp[t].last < |rows|
    requires sp == [] <==> rows == []
    requires sp != [] ==> sp[0].first == 0 && sp[|sp| - 1].last == |rows| - 1
    ensures var b := Blocks(rows, codes, sp);
      (b == [] <==> rows == [])
      && (b != [] ==> b[0].time == rows[0].time && b[|b| - 1].endTime == LastEnd
                      && b[|b| - 1].endPeriod == rows[|rows| - 1].period)
  {
  }

  lemma {:induction false} BlocksMeet(rows: seq<Row>, codes: seq<string>, sp: seq<Span>)
    requires forall t :: 0 <= t < |sp| ==> sp[t].first <= sp[t].last < |rows|
    requires forall t :: 0 <= t < |sp| - 1 ==> sp[t + 1].first == sp[t].last + 1
    ensures var b := Blocks(rows, codes, sp);
      forall t :: 0 <= t < |b| - 1 ==> b[t].endTime == b[t + 1].time
  {
    var b := Blocks(rows, codes, sp);
    forall t | 0 <= t < |b| - 1
      ensures b[t].endTime == b[t + 1].time
    {
      assert sp[t + 1].first == sp[t].last + 1;
    }
  }

  lemma {:induction false} BlocksDiffer(rows: seq<Row>, codes: seq<string>, items: seq<Item<(Option<string>, Option<string>)>>, sp: seq<Span>)
    requires |items| == |rows|
    requires forall i :: 0 <= i < |rows| ==>
      items[i] == Item((Tag(rows[i], codes).className, Tag(rows[i], codes).code), true, false)
    requires forall t :: 0 <= t < |sp| ==> sp[t].first <= sp[t].last < |rows|
    requires forall t :: 0 <= t < |sp| - 1 && !items[sp[t + 1].first].hard ==>
      items[sp[t + 1].first].tag != items[sp[t].first].tag
    ensures var b := Blocks(rows, codes, sp);
      forall t :: 0 <= t < |b| - 1 ==> (b[t].className, b[t].code) != (b[t + 1].className, b[t + 1].code)
  {
    var b := Blocks(rows, codes, sp);
    forall t | 0 <= t < |b| - 1
      ensures (b[t].className, b[t].code) != (b[t + 1].className, b[t + 1].code)
    {
      assert items[sp[t + 1].first].tag != items[sp[t].first].tag;
    }
  }

  /** Every block shown is a lesson under one of the teacher's codes, in a class column of its first slot. */
  lemma {:induction false} ShownBlocksAreLessons(data: Option<seq<Row>>, day: string, codes: seq<string>)
    ensures forall b :: b in TeacherSchedule(data, day, codes) ==>
      IsLesson(b) && b.code.value in codes && b.className.value != "time" && b.className.value != "period"
  {
    if data.Some? && codes != [] {
      var rows := DayRows(SplitDays(data.value), day);
      var all := TeacherBlocks(rows, codes);
      var sp := SpansOf(Items(rows, codes), |rows|);
      forall b | b in TeacherSchedule(data, day, codes)
        ensures IsLesson(b) && b.code.value in codes && b.className.value != "time" && b.className.value != "period"
      {
        assert b in all;
        var t :| 0 <= t < |all| && all[t] == b;
        var first := rows[sp[t].first];
        assert b.code == Tag(first, codes).code;
        var c := FindMatch(first.cells, codes);
        assert c.Some?;
      }
    }
  }
}
