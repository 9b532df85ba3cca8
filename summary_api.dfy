/**
 * `GET /api/summary`: the dashboard counts, and above all the number of
 * schedule records whose teacher is booked twice in the same slot.
 */
module SummaryApi {
  import opened Base
  import opened Text
  import opened Records
  import opened Utils

  /**
   * The codes the conflict query leaves out: `LIKE 'Z%' OR LIKE 'X%'` (SQLite's
   * LIKE ignores ASCII case), longer than one character, and nothing but digits
   * after the first one once `TRIM(..., '0123456789')` has removed them.
   */
  predicate Excluded(code: string)
  {
    |code| > 1 && code[0] in {'X', 'x', 'Z', 'z'} && AllDigits(code[1..])
  }

  /** Same day, same time slot and same teacher code: one `GROUP BY` group. */
  predicate SameCell(a: Schedule, b: Schedule)
  {
    a.day == b.day && a.timeSlot == b.timeSlot && a.teacherCode == b.teacherCode
  }

  /** The records of `all` in the same group as `s` (`s` itself included when it is one of them). */
  function GroupOf(all: seq<Schedule>, s: Schedule): (g: seq<Schedule>)
    ensures forall x :: x in g <==> x in all && SameCell(x, s)
  {
    Filter(all, (x: Schedule) => SameCell(x, s))
  }

  /** The `WHERE` clause: a non-null, non-excluded code shared with another record of the slot. */
  predicate Counted(s: Schedule, all: seq<Schedule>)
  {
    s.teacherCode.Some? && !Excluded(s.teacherCode.value) && |GroupOf(all, s)| > 1
  }

  /** `total_conflicts`. */
  function ConflictCount(all: seq<Schedule>): (n: nat)
    ensures n <= |all|
  {
    |Filter(all, (s: Schedule) => Counted(s, all))|
  }

  /** The records of `all` outside the group of `s`. */
  function OtherGroups(all: seq<Schedule>, s: Schedule): (r: seq<Schedule>)
    ensures forall x :: x in r <==> x in all && !SameCell(x, s)
    ensures s in all ==> |r| < |all|
  {
    FilterSizes(all, (x: Schedule) => SameCell(x, s), (x: Schedule) => !SameCell(x, s));
    assert s in all ==> s in GroupOf(all, s);
    Filter(all, (x: Schedule) => !SameCell(x, s))
  }

  /**
   * The conflicts counted group by group, as `GROUP BY day, time_slot,
   * teacher_code` forms them: the first record's group adds its size when its
   * code is a non-excluded teacher code held more than once, and the count
   * goes on with the other groups.
   */
  function GroupedConflicts(rest: seq<Schedule>): nat
    decreases |rest|
  {
    if rest == [] then 0
    else
      var s := rest[0];
      var g := GroupOf(rest, s);
      (if s.teacherCode.Some? && !Excluded(s.teacherCode.value) && |g| > 1 then |g| else 0)
      + GroupedConflicts(OtherGroups(rest, s))
  }

  /**
   * `total_conflicts` is the sum of the sizes of the groups with more than one
   * record and a non-null, non-excluded code.
   */
  lemma {:induction false} ConflictCountByGroups(all: seq<Schedule>)
    ensures ConflictCount(all) == GroupedConflicts(all)
  {
    CountedByGroups(all, all);
  }

  /** The induction behind it, over a part of the table made of whole groups. */
  lemma {:induction false} CountedByGroups(all: seq<Schedule>, rest: seq<Schedule>)
    requires forall x :: x in rest ==> GroupOf(all, x) == GroupOf(rest, x)
    ensures |Filter(rest, (x: Schedule) => Counted(x, all))| == GroupedConflicts(rest)
    decreases |rest|
  {
    if rest != [] {
      var s := rest[0];
      var g, others := GroupOf(rest, s), OtherGroups(rest, s);
      var own := if s.teacherCode.Some? && !Excluded(s.teacherCode.value) && |g| > 1 then |g| else 0;
      assert GroupedConflicts(rest) == own + GroupedConflicts(others);
      SplitAtGroup(all, rest, s);
      assert s in rest;
      assert GroupOf(all, s) == g;
      GroupCounted(all, g, s);
      assert |Filter(g, (x: Schedule) => Counted(x, all))| == own;
      OthersWholeGroups(all, rest, s);
      CountedByGroups(all, others);
    }
  }

  /** The counted records of a part are those of one group plus those outside it. */
  lemma {:induction false} SplitAtGroup(all: seq<Schedule>, rest: seq<Schedule>, s: Schedule)
    ensures |Filter(rest, (x: Schedule) => Counted(x, all))| ==
      |Filter(GroupOf(rest, s), (x: Schedule) => Counted(x, all))| + |Filter(OtherGroups(rest, s), (x: Schedule) => Counted(x, all))|
  {
    FilterSplitSize(rest, (x: Schedule) => Counted(x, all), (x: Schedule) => SameCell(x, s), (x: Schedule) => !SameCell(x, s));
  }

  /** A group is counted whole or not at all. */
  lemma {:induction false} GroupCounted(all: seq<Schedule>, g: seq<Schedule>, s: Schedule)
    requires forall x :: x in g ==> SameCell(x, s)
    ensures |Filter(g, (x: Schedule) => Counted(x, all))| == if Counted(s, all) then |g| else 0
  {
    forall x | x in g
      ensures Counted(x, all) <==> Counted(s, all)
    {
      GroupShared(all, x, s);
    }
    if Counted(s, all) {
      FilterAll(g, (x: Schedule) => Counted(x, all));
    }
  }

  /** Taking one group out of a part made of whole groups leaves whole groups. */
  lemma {:induction false} OthersWholeGroups(all: seq<Schedule>, rest: seq<Schedule>, s: Schedule)
    requires forall x :: x in rest ==> GroupOf(all, x) == GroupOf(rest, x)
    ensures forall x :: x in OtherGroups(rest, s) ==> GroupOf(all, x) == GroupOf(OtherGroups(rest, s), x)
  {
    forall x | x in OtherGroups(rest, s)
      ensures GroupOf(all, x) == GroupOf(OtherGroups(rest, s), x)
    {
      FilterNarrower(rest, (y: Schedule) => !SameCell(y, s), (y: Schedule) => SameCell(y, x));
    }
  }

  /** Records of one group share their group, so all of them are counted or none. */
  lemma {:induction false} GroupShared(all: seq<Schedule>, s: Schedule, t: Schedule)
    requires SameCell(s, t)
    ensures GroupOf(all, s) == GroupOf(all, t)
    ensures Counted(s, all) <==> Counted(t, all)
  {
    FilterSameTest(all, (x: Schedule) => SameCell(x, s), (x: Schedule) => SameCell(x, t));
  }

  /**
   * A conflict always involves at least two records: the count is never one,
   * and a counted record brings its whole group, of two or more, into the count.
   */
  lemma {:induction false} ConflictsComeInGroups(all: seq<Schedule>, s: Schedule)
    requires s in all && Counted(s, all)
    ensures ConflictCount(all) >= |GroupOf(all, s)| >= 2
  {
    forall x | x in all && SameCell(x, s)
      ensures Counted(x, all)
    {
      GroupShared(all, x, s);
    }
    FilterWeaker(all, (x: Schedule) => SameCell(x, s), (x: Schedule) => Counted(x, all));
  }

  /** Hence no table has exactly one conflicting record. */
  lemma {:induction false} ConflictCountNeverOne(all: seq<Schedule>)
    ensures ConflictCount(all) != 1
  {
    var counted := Filter(all, (s: Schedule) => Counted(s, all));
    if counted != [] {
      assert counted[0] in counted;
      ConflictsComeInGroups(all, counted[0]);
    }
  }

  /**
   * Every teacher code of the client other than "Z0" is one the server checks,
   * while the server also checks codes like "XA" that the client rejects.
   */
  lemma {:induction false} ServerChecksTeacherCodes(code: string)
    ensures CheckIfTeacherCode(code) && code != "Z0" ==> !Excluded(code)
    ensures Excluded("Z0") && Excluded("X1") && Excluded("Z12") && Excluded("x1")
    ensures !Excluded("XA") && !CheckIfTeacherCode("XA")
  {
    assert "Z12"[1..] == "12" && "XA"[1..] == "A";
    assert "XA"[1] != "Z0"[1] && StartsXZ("XA");
  }

  /** The distinct subjects of the teachers: `COUNT(DISTINCT subject)`. */
  function Subjects(teachers: seq<Teacher>): (r: set<string>)
    ensures |r| <= |teachers|
    ensures forall s :: s in r <==> exists t :: t in teachers && t.subject == s
  {
    if teachers == [] then {}
    else
      var n := |teachers| - 1;
      assert teachers == teachers[..n] + [teachers[n]];
      Subjects(teachers[..n]) + {teachers[n].subject}
  }

  datatype Summary = Summary(teachersCount: int, scheduleSlotsCount: int, scheduleConflictsCount: int, subjectsCoveredCount: int)

  /** The response body's counts; a query that returns no row counts as 0. */
  function SummaryOf(teachers: Option<int>, slots: Option<int>, conflicts: Option<int>, subjects: Option<int>): (r: Summary)
    ensures teachers.None? ==> r.teachersCount == 0
    ensures slots.None? ==> r.scheduleSlotsCount == 0
    ensures conflicts.None? ==> r.scheduleConflictsCount == 0
    ensures subjects.None? ==> r.subjectsCoveredCount == 0
  {
    Summary(teachers.GetOr(0), slots.GetOr(0), conflicts.GetOr(0), subjects.GetOr(0))
  }

  /**
   * The summary of two tables: no more subjects than teachers, no more
   * conflicts than schedule records, and never exactly one conflict.
   */
  lemma {:induction false} TablesSummary(teachers: seq<Teacher>, schedules: seq<Schedule>)
    ensures var r := SummaryOf(Some(|teachers|), Some(|schedules|), Some(ConflictCount(schedules)), Some(|Subjects(teachers)|));
      0 <= r.subjectsCoveredCount <= r.teachersCount &&
      0 <= r.scheduleConflictsCount <= r.scheduleSlotsCount &&
      r.scheduleConflictsCount != 1
  {
    ConflictCountNeverOne(schedules);
  }
}
