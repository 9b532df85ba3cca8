/**
 * The admin schedule grid: records grouped by time slot, slots in sorted
 * order, period numbers for the slots that hold a teacher code, per-slot
 * code counts, and the label and state of each cell's button.
 */
module SchedulesTable {
  import opened Base
  import opened Text
  import opened Records
  import opened Sorting
  import opened Utils

  /** `checkIfTeacherCode(s.teacher_code)`, a `null` code being tested as "null". */
  predicate HasTeacherCode(s: Schedule)
  {
    CheckIfTeacherCode(Coerce(s.teacherCode))
  }

  /** A record without a code never counts as holding a teacher code. */
  lemma {:induction false} NullNotTeacherCode(s: Schedule)
    requires s.teacherCode.None?
    ensures !HasTeacherCode(s)
  {
    LowerCaseNotTeacherCode("null", 0);
  }

  // ---------------------------------------------------------------------------
  // Grouping by time slot
  // ---------------------------------------------------------------------------

  /** The records of one slot, in input order. */
  function OfSlot(xs: seq<Schedule>, slot: string): (r: seq<Schedule>)
    ensures |r| <= |xs|
  {
    if xs == [] then []
    else
      var s := xs[|xs| - 1];
      assert xs == xs[..|xs| - 1] + [s];
      OfSlot(xs[..|xs| - 1], slot) + (if s.timeSlot == slot then [s] else [])
  }

  /** The time slot of each record. */
  function SlotList(xs: seq<Schedule>): (r: seq<string>)
    ensures |r| == |xs| && forall i :: 0 <= i < |xs| ==> r[i] == xs[i].timeSlot
  {
    seq(|xs|, i requires 0 <= i < |xs| => xs[i].timeSlot)
  }

  /** `acc` and its key order are the grouping of `xs`. */
  ghost predicate GroupedAs(acc: map<string, seq<Schedule>>, keys: seq<string>, xs: seq<Schedule>)
  {
    keys == Dedupe(SlotList(xs))
    && (forall k :: k in acc <==> k in keys)
    && (forall k :: k in acc ==> acc[k] == OfSlot(xs, k))
  }

  lemma {:induction false} GroupStep(acc: map<string, seq<Schedule>>, keys: seq<string>, xs: seq<Schedule>, s: Schedule)
    requires GroupedAs(acc, keys, xs)
    ensures GroupedAs(acc[s.timeSlot := (if s.timeSlot in acc then acc[s.timeSlot] else []) + [s]],
                      if s.timeSlot in acc then keys else keys + [s.timeSlot], xs + [s])
  {
    GroupKeysStep(keys, xs, s);
    GroupValuesStep(acc, keys, xs, s);
  }

  /** A record with a new slot appends it to the keys; any other leaves them. */
  lemma {:induction false} GroupKeysStep(keys: seq<string>, xs: seq<Schedule>, s: Schedule)
    requires keys == Dedupe(SlotList(xs))
    ensures (if s.timeSlot in keys then keys else keys + [s.timeSlot]) == Dedupe(SlotList(xs + [s]))
  {
    assert SlotList(xs + [s]) == SlotList(xs) + [s.timeSlot];
    DedupeSnoc(SlotList(xs), s.timeSlot);
  }

  lemma {:induction false} GroupValuesStep(acc: map<string, seq<Schedule>>, keys: seq<string>, xs: seq<Schedule>, s: Schedule)
    requires GroupedAs(acc, keys, xs)
    ensures var acc' := acc[s.timeSlot := (if s.timeSlot in acc then acc[s.timeSlot] else []) + [s]];
      forall k :: k in acc' ==> acc'[k] == OfSlot(xs + [s], k)
  {
    var acc' := acc[s.timeSlot := (if s.timeSlot in acc then acc[s.timeSlot] else []) + [s]];
    forall k | k in acc'
      ensures acc'[k] == OfSlot(xs + [s], k)
    {
      GroupStepAt(acc, keys, xs, s, k);
    }
  }

  /** One slot's group after a record is added. */
  lemma {:induction false} GroupStepAt(acc: map<string, seq<Schedule>>, keys: seq<string>, xs: seq<Schedule>, s: Schedule, k: string)
    requires GroupedAs(acc, keys, xs)
    requires k in acc || k == s.timeSlot
    ensures acc[s.timeSlot := (if s.timeSlot in acc then acc[s.timeSlot] else []) + [s]][k] == OfSlot(xs + [s], k)
  {
    OfSlotSnoc(xs, s, k);
    if k == s.timeSlot && k !in acc {
      assert k !in Dedupe(SlotList(xs));
      OfSlotAbsent(xs, k);
    }
  }

  lemma {:induction false} OfSlotSnoc(xs: seq<Schedule>, s: Schedule, slot: string)
    ensures OfSlot(xs + [s], slot) == OfSlot(xs, slot) + (if s.timeSlot == slot then [s] else [])
  {
    assert (xs + [s])[..|xs|] == xs;
  }

  /** A slot no record has gets no records. */
  lemma {:induction false} OfSlotAbsent(xs: seq<Schedule>, slot: string)
    requires slot !in SlotList(xs)
    ensures OfSlot(xs, slot) == []
  {
    if xs != [] {
      var prefix := xs[..|xs| - 1];
      assert SlotList(xs)[|xs| - 1] == xs[|xs| - 1].timeSlot;
      assert forall i :: 0 <= i < |prefix| ==> SlotList(prefix)[i] == SlotList(xs)[i];
      OfSlotAbsent(prefix, slot);
    }
  }

  /**
   * `groupSchedulesByTimeSlot`: each slot maps to its records in input order,
   * and the object's keys are the slots in the order they first appear.
   */
  method GroupSchedulesByTimeSlot(schedules: seq<Schedule>) returns (grouped: map<string, seq<Schedule>>, keys: seq<string>)
    ensures keys == Dedupe(SlotList(schedules))
    ensures forall k :: k in grouped <==> k in keys
    ensures forall k :: k in grouped ==> grouped[k] == OfSlot(schedules, k)
  {
    grouped := map[];
    keys := [];
    for i := 0 to |schedules|
      invariant GroupedAs(grouped, keys, schedules[..i])
    {
      assert schedules[..i + 1] == schedules[..i] + [schedules[i]];
      grouped, keys := AddToGroup(grouped, keys, schedules[..i], schedules[i]);
    }
    assert schedules[..|schedules|] == schedules;
    assert GroupedAs(grouped, keys, schedules);
  }

  /** The `reduce` callback: `(acc[sched.time_slot] ||= []).push(sched)`, a new slot also becoming the last key. */
  method AddToGroup(acc: map<string, seq<Schedule>>, keys: seq<string>, ghost xs: seq<Schedule>, sched: Schedule)
    returns (acc': map<string, seq<Schedule>>, keys': seq<string>)
    requires GroupedAs(acc, keys, xs)
    ensures GroupedAs(acc', keys', xs + [sched])
  {
    GroupStep(acc, keys, xs, sched);
    var slot := sched.timeSlot;
    var group := if slot in acc then acc[slot] else [];
    keys' := keys;
    if slot !in acc {
      keys' := keys + [slot];
    }
    acc' := acc[slot := group + [sched]];
  }

  /** Grouping distributes over concatenation, so each group keeps the input order. */
  lemma {:induction false} OfSlotAppend(xs: seq<Schedule>, ys: seq<Schedule>, slot: string)
    ensures OfSlot(xs + ys, slot) == OfSlot(xs, slot) + OfSlot(ys, slot)
    decreases |ys|
  {
    if ys != [] {
      var zs := xs + ys;
      assert zs[..|zs| - 1] == xs + ys[..|ys| - 1];
      OfSlotAppend(xs, ys[..|ys| - 1], slot);
    } else {
      assert xs + ys == xs;
    }
  }

  /**
   * Every record lies in the group of its own slot as often as it occurs in
   * the input, and in no other group.
   */
  lemma {:induction false} GroupHoldsEachRecordOnce(xs: seq<Schedule>, s: Schedule, slot: string)
    ensures multiset(OfSlot(xs, s.timeSlot))[s] == multiset(xs)[s]
    ensures slot != s.timeSlot ==> s !in OfSlot(xs, slot)
  {
    if xs != [] {
      GroupHoldsEachRecordOnce(xs[..|xs| - 1], s, slot);
      assert xs == xs[..|xs| - 1] + [xs[|xs| - 1]];
    }
  }

  /** `Object.keys(grouped).sort()`. */
  function TimeSlots(keys: seq<string>): seq<string>
  {
    Sort(keys)
  }

  /**
   * The rows are listed in strictly increasing slot order, one row per slot
   * that occurs, whatever order the keys were inserted in.
   */
  lemma {:induction false} TimeSlotsSorted(schedules: seq<Schedule>, otherKeys: seq<string>)
    requires Distinct(otherKeys) && forall k :: k in otherKeys <==> k in SlotList(schedules)
    ensures StrictlySorted(TimeSlots(Dedupe(SlotList(schedules))))
    ensures forall k :: k in TimeSlots(Dedupe(SlotList(schedules))) <==> exists s :: s in schedules && s.timeSlot == k
    ensures TimeSlots(otherKeys) == TimeSlots(Dedupe(SlotList(schedules)))
  {
    var keys := Dedupe(SlotList(schedules));
    SortDedupe(SlotList(schedules));
    forall k
      ensures k in SlotList(schedules) <==> exists s :: s in schedules && s.timeSlot == k
    {
      if k in SlotList(schedules) {
        var i :| 0 <= i < |schedules| && SlotList(schedules)[i] == k;
        assert schedules[i] in schedules;
      }
      if exists s :: s in schedules && s.timeSlot == k {
        var s :| s in schedules && s.timeSlot == k;
        var i :| 0 <= i < |schedules| && schedules[i] == s;
        assert SlotList(schedules)[i] == k;
      }
    }
    PermutationDistinct(otherKeys, Sort(otherKeys));
    SortedDistinctStrict(Sort(otherKeys));
    forall k
      ensures k in Sort(otherKeys) <==> k in otherKeys
    {
      assert k in Sort(otherKeys) <==> k in multiset(Sort(otherKeys));
    }
    StrictlySortedUnique(Sort(otherKeys), Sort(keys));
  }

  // ---------------------------------------------------------------------------
  // Period numbers
  // ---------------------------------------------------------------------------

  /** `rows.some(s => checkIfTeacherCode(s.teacher_code))`. */
  predicate AnyTeacherCode(rows: seq<Schedule>)
  {
    exists s :: s in rows && HasTeacherCode(s)
  }

  /** The slot has a group holding a teacher code, and so gets a period number. */
  predicate NumberedSlot(grouped: map<string, seq<Schedule>>, slot: string)
  {
    slot in grouped && AnyTeacherCode(grouped[slot])
  }

  /** How many of the slots hold at least one teacher-code record. */
  function Numbered(slots: seq<string>, grouped: map<string, seq<Schedule>>): (n: nat)
    ensures n <= |slots|
  {
    if slots == [] then 0
    else Numbered(slots[..|slots| - 1], grouped) + (if NumberedSlot(grouped, slots[|slots| - 1]) then 1 else 0)
  }

  /** The period of slot `i`: one more than the numbered slots before it, or none. */
  function PeriodAt(slots: seq<string>, grouped: map<string, seq<Schedule>>, i: nat): Option<nat>
    requires i < |slots|
  {
    if NumberedSlot(grouped, slots[i]) then Some(Numbered(slots[..i], grouped) + 1) else None
  }

  /** A slot's period depends only on the slots up to it. */
  lemma {:induction false} PeriodAtPrefix(slots: seq<string>, grouped: map<string, seq<Schedule>>, k: nat, i: nat)
    requires i < k <= |slots|
    ensures PeriodAt(slots[..k], grouped, i) == PeriodAt(slots, grouped, i)
  {
    assert slots[..k][..i] == slots[..i];
    assert slots[..k][i] == slots[i];
  }

  /** The map the loop of `getPeriodMap` has built after the given slots. */
  function PeriodMapOf(slots: seq<string>, grouped: map<string, seq<Schedule>>): map<string, Option<nat>>
  {
    if slots == [] then map[]
    else PeriodMapOf(slots[..|slots| - 1], grouped)[slots[|slots| - 1] := PeriodAt(slots, grouped, |slots| - 1)]
  }

  /**
   * Every slot is a key of the period map, and a slot's entry (its last one,
   * should a slot repeat) is its running period number or `null`.
   */
  lemma {:induction false} PeriodMapEntries(slots: seq<string>, grouped: map<string, seq<Schedule>>)
    ensures forall slot :: slot in PeriodMapOf(slots, grouped) <==> slot in slots
    ensures forall i :: 0 <= i < |slots| && slots[i] !in slots[i + 1..] ==> PeriodMapOf(slots, grouped)[slots[i]] == PeriodAt(slots, grouped, i)
  {
    PeriodMapKeys(slots, grouped);
    forall i | 0 <= i < |slots| && slots[i] !in slots[i + 1..]
      ensures PeriodMapOf(slots, grouped)[slots[i]] == PeriodAt(slots, grouped, i)
    {
      PeriodMapAt(slots, grouped, i);
    }
  }

  lemma {:induction false} PeriodMapKeys(slots: seq<string>, grouped: map<string, seq<Schedule>>)
    ensures forall slot :: slot in PeriodMapOf(slots, grouped) <==> slot in slots
  {
    if slots != [] {
      var last := |slots| - 1;
      PeriodMapKeys(slots[..last], grouped);
      assert slots == slots[..last] + [slots[last]];
    }
  }

  /** The entry of a slot that does not repeat later is its running period number. */
  lemma {:induction false} PeriodMapAt(slots: seq<string>, grouped: map<string, seq<Schedule>>, i: nat)
    requires i < |slots| && slots[i] !in slots[i + 1..]
    ensures slots[i] in PeriodMapOf(slots, grouped) && PeriodMapOf(slots, grouped)[slots[i]] == PeriodAt(slots, grouped, i)
  {
    var last := |slots| - 1;
    if i < last {
      var prefix := slots[..last];
      assert slots[last] in slots[i + 1..];
      assert slots[i + 1..] == prefix[i + 1..] + [slots[last]];
      PeriodMapAt(prefix, grouped, i);
      PeriodAtPrefix(slots, grouped, last, i);
    }
  }

  /** `getPeriodMap`: numbers the slots that hold a teacher code 1, 2, 3, ... in order; the others map to `null`. */
  method GetPeriodMap(timeSlots: seq<string>, grouped: map<string, seq<Schedule>>) returns (m: map<string, Option<nat>>)
    requires forall slot :: slot in timeSlots ==> slot in grouped
    ensures m == PeriodMapOf(timeSlots, grouped)
  {
    var period := 1;
    m := map[];
    for n := 0 to |timeSlots|
      invariant period == Numbered(timeSlots[..n], grouped) + 1
      invariant m == PeriodMapOf(timeSlots[..n], grouped)
    {
      var slot := timeSlots[n];
      var next := timeSlots[..n + 1];
      assert next[..n] == timeSlots[..n] && next[n] == slot;
      var hasTeacherCode := exists s :: s in grouped[slot] && HasTeacherCode(s);
      assert hasTeacherCode == NumberedSlot(grouped, slot);
      assert PeriodAt(next, grouped, n) == if hasTeacherCode then Some(period) else None;
      if hasTeacherCode {
        m := m[slot := Some(period)];
        period := period + 1;
      } else {
        m := m[slot := None];
      }
    }
    assert timeSlots[..|timeSlots|] == timeSlots;
  }

  /** Counting numbered slots over a longer prefix never gives less. */
  lemma {:induction false} NumberedGrows(slots: seq<string>, grouped: map<string, seq<Schedule>>, i: nat, j: nat)
    requires i <= j <= |slots|
    ensures Numbered(slots[..i], grouped) <= Numbered(slots[..j], grouped)
    decreases j
  {
    if i < j {
      NumberedGrows(slots, grouped, i, j - 1);
      assert slots[..j][..j - 1] == slots[..j - 1];
    }
  }

  /** Some slot gets period number `n`. */
  ghost predicate NumberUsed(slots: seq<string>, grouped: map<string, seq<Schedule>>, n: nat)
  {
    exists i: nat :: i < |slots| && PeriodAt(slots, grouped, i) == Some(n)
  }

  /** The number `n` is given to some slot whenever `1 <= n <= Numbered(slots)`. */
  lemma {:induction false} NumberTaken(slots: seq<string>, grouped: map<string, seq<Schedule>>, n: nat)
    requires 1 <= n <= Numbered(slots, grouped)
    ensures NumberUsed(slots, grouped, n)
  {
    var last := |slots| - 1;
    var prefix := slots[..last];
    if n <= Numbered(prefix, grouped) {
      NumberTaken(prefix, grouped, n);
      var i: nat :| i < |prefix| && PeriodAt(prefix, grouped, i) == Some(n);
      PeriodAtPrefix(slots, grouped, last, i);
    } else {
      assert PeriodAt(slots, grouped, last) == Some(n);
    }
  }

  /**
   * The period numbers are 1, 2, 3, ... in slot order: they increase strictly
   * along the slots, stay within 1..N where N is the number of slots holding a
   * teacher code, and every number in that range is used.
   */
  lemma {:induction false} PeriodsConsecutive(slots: seq<string>, grouped: map<string, seq<Schedule>>)
    ensures forall i, j :: 0 <= i < j < |slots| && PeriodAt(slots, grouped, i).Some? && PeriodAt(slots, grouped, j).Some?
              ==> PeriodAt(slots, grouped, i).value < PeriodAt(slots, grouped, j).value
    ensures forall i :: 0 <= i < |slots| && PeriodAt(slots, grouped, i).Some?
              ==> 1 <= PeriodAt(slots, grouped, i).value <= Numbered(slots, grouped)
    ensures forall n: nat :: 1 <= n <= Numbered(slots, grouped) ==> NumberUsed(slots, grouped, n)
  {
    forall n: nat | 1 <= n <= Numbered(slots, grouped)
      ensures NumberUsed(slots, grouped, n)
    {
      NumberTaken(slots, grouped, n);
    }
    forall i, j | 0 <= i < j < |slots| && PeriodAt(slots, grouped, i).Some? && PeriodAt(slots, grouped, j).Some?
      ensures PeriodAt(slots, grouped, i).value < PeriodAt(slots, grouped, j).value
    {
      NumberedGrows(slots, grouped, i + 1, j);
      assert slots[..i + 1][..i] == slots[..i];
    }
    forall i | 0 <= i < |slots| && PeriodAt(slots, grouped, i).Some?
      ensures PeriodAt(slots, grouped, i).value <= Numbered(slots, grouped)
    {
      NumberedGrows(slots, grouped, i + 1, |slots|);
      assert slots[..i + 1][..i] == slots[..i];
      assert slots[..|slots|] == slots;
    }
  }

  // ---------------------------------------------------------------------------
  // Per-slot code counts and conflicts
  // ---------------------------------------------------------------------------

  /** The codes of the records that hold a teacher code, as a bag. */
  function TeacherCodeBag(rows: seq<Schedule>): multiset<string>
  {
    if rows == [] then multiset{}
    else
      var s := rows[|rows| - 1];
      TeacherCodeBag(rows[..|rows| - 1]) + (if HasTeacherCode(s) then multiset{Coerce(s.teacherCode)} else multiset{})
  }

  /** `getTeacherCodeCounts`: how many records of the slot hold each teacher code. */
  method GetTeacherCodeCounts(rows: seq<Schedule>) returns (counts: map<string, nat>)
    ensures CountsOf(counts, TeacherCodeBag(rows))
  {
    counts := map[];
    for i := 0 to |rows|
      invariant CountsOf(counts, TeacherCodeBag(rows[..i]))
    {
      var s := rows[i];
      assert rows[..i + 1][..i] == rows[..i];
      if HasTeacherCode(s) {
        CountStep(counts, TeacherCodeBag(rows[..i]), s.teacherCode.value);
        counts := counts[s.teacherCode.value := (if s.teacherCode.value in counts then counts[s.teacherCode.value] else 0) + 1];
      }
    }
    assert rows[..|rows|] == rows;
  }

  /** The number of records whose code is `code`. */
  function Holders(rows: seq<Schedule>, code: string): nat
  {
    if rows == [] then 0
    else Holders(rows[..|rows| - 1], code) + (if rows[|rows| - 1].teacherCode == Some(code) then 1 else 0)
  }

  /** A teacher code's count in the bag is the number of records holding it. */
  lemma {:induction false} BagCountsHolders(rows: seq<Schedule>, code: string)
    requires CheckIfTeacherCode(code)
    ensures TeacherCodeBag(rows)[code] == Holders(rows, code)
  {
    if rows != [] {
      BagCountsHolders(rows[..|rows| - 1], code);
      var s := rows[|rows| - 1];
      if s.teacherCode.None? {
        NullNotTeacherCode(s);
      }
    }
  }

  /** More than one holder exactly when a record other than `i` holds the code too. */
  lemma {:induction false} HoldersShared(rows: seq<Schedule>, i: nat, code: string)
    requires i < |rows| && rows[i].teacherCode == Some(code)
    ensures Holders(rows, code) > 1 <==> exists j :: 0 <= j < |rows| && j != i && rows[j].teacherCode == Some(code)
  {
    var last := |rows| - 1;
    var prefix := rows[..last];
    if i == last {
      HoldersPositive(prefix, code);
    } else {
      HoldersShared(prefix, i, code);
      assert Holders(prefix, code) >= 1 by {
        HoldersPositive(prefix, code);
      }
      if exists j :: 0 <= j < |rows| && j != i && rows[j].teacherCode == Some(code) {
        var j :| 0 <= j < |rows| && j != i && rows[j].teacherCode == Some(code);
        if j < last {
          assert prefix[j] == rows[j];
        }
      }
    }
  }

  /** Some record holds the code exactly when its count is positive. */
  lemma {:induction false} HoldersPositive(rows: seq<Schedule>, code: string)
    ensures Holders(rows, code) >= 1 <==> exists j :: 0 <= j < |rows| && rows[j].teacherCode == Some(code)
  {
    if rows != [] {
      var prefix := rows[..|rows| - 1];
      HoldersPositive(prefix, code);
      if exists j :: 0 <= j < |prefix| && prefix[j].teacherCode == Some(code) {
        var j :| 0 <= j < |prefix| && prefix[j].teacherCode == Some(code);
        assert rows[j] == prefix[j];
      }
      if exists j :: 0 <= j < |rows| && rows[j].teacherCode == Some(code) {
        var j :| 0 <= j < |rows| && rows[j].teacherCode == Some(code);
        if j < |prefix| {
          assert prefix[j] == rows[j];
        }
      }
    }
  }

  /** The `isConflict` test of a cell against the slot's counts. */
  predicate IsConflict(code: Option<string>, counts: map<string, nat>)
  {
    var c := Coerce(code);
    CheckIfTeacherCode(c) && c in counts && counts[c] > 1 && c != "Z0"
  }

  /**
   * A cell is in conflict exactly when it holds a teacher code other than
   * "Z0" that another record of the same slot also holds; so conflict is
   * symmetric between records of a slot sharing a code.
   */
  lemma {:induction false} ConflictShared(rows: seq<Schedule>, i: nat, counts: map<string, nat>)
    requires i < |rows| && CountsOf(counts, TeacherCodeBag(rows))
    ensures IsConflict(rows[i].teacherCode, counts)
        <==> HasTeacherCode(rows[i]) && rows[i].teacherCode != Some("Z0")
             && exists j :: 0 <= j < |rows| && j != i && rows[j].teacherCode == rows[i].teacherCode
  {
    if HasTeacherCode(rows[i]) {
      if rows[i].teacherCode.None? {
        NullNotTeacherCode(rows[i]);
      }
      var code := rows[i].teacherCode.value;
      BagCountsHolders(rows, code);
      HoldersShared(rows, i, code);
    }
  }

  // ---------------------------------------------------------------------------
  // Cell buttons
  // ---------------------------------------------------------------------------

  datatype Variant = Outline | Destructive

  datatype ButtonProps = ButtonProps(caption: string, variant: Variant, disabled: bool, isChanged: bool)

  /** `rows.find(s => s.class_name === cls)`. */
  function FindByClass(rows: seq<Schedule>, cls: string): (r: Option<Schedule>)
    ensures r.None? <==> forall s :: s in rows ==> s.className != cls
    ensures r.Some? ==> r.value in rows && r.value.className == cls
    ensures r.Some? ==> exists i :: 0 <= i < |rows| && rows[i] == r.value && forall j :: 0 <= j < i ==> rows[j].className != cls
  {
    if rows == [] then None
    else if rows[0].className == cls then Some(rows[0])
    else FindByClass(rows[1..], cls)
  }

  /** `teachers.find(t => t.code === code)`. */
  function FindTeacher(teachers: seq<Teacher>, code: string): (r: Option<Teacher>)
    ensures r.None? <==> forall t :: t in teachers ==> t.code != code
    ensures r.Some? ==> r.value in teachers && r.value.code == code
    ensures r.Some? ==> exists i :: 0 <= i < |teachers| && teachers[i] == r.value && forall j :: 0 <= j < i ==> teachers[j].code != code
  {
    if teachers == [] then None
    else if teachers[0].code == code then Some(teachers[0])
    else FindTeacher(teachers[1..], code)
  }

  /** `isChanged`: a truthy id whose original code is known and differs. */
  predicate Changed(s: Schedule, originals: map<int, Option<string>>)
  {
    s.id != 0 && s.id in originals && s.teacherCode != originals[s.id]
  }

  /** `getButtonProps`: the caption (label), style and state of the button for a cell. */
  function GetButtonProps(found: Option<Schedule>, codeCounts: map<string, nat>, originals: map<int, Option<string>>,
                          teachers: seq<Teacher>, isPending: bool): (r: ButtonProps)
    ensures found.None? ==> r == ButtonProps("-", Outline, true, false)
    ensures found.Some? ==> r.isChanged == Changed(found.value, originals)
    ensures found.Some? ==>
      (r.variant == Destructive <==> found.value.teacherCode.None? || IsConflict(found.value.teacherCode, codeCounts))
    ensures found.Some? ==> (r.disabled <==> (found.value.teacherCode.Some? && !HasTeacherCode(found.value)) || isPending)
  {
    match found
    case None => ButtonProps("-", Outline, true, false)
    case Some(s) =>
      var code := s.teacherCode;
      var isTeacherCode := HasTeacherCode(s);
      var isConflict := isTeacherCode && Coerce(code) in codeCounts && codeCounts[Coerce(code)] > 1 && Coerce(code) != "Z0";
      var isChanged := Changed(s, originals);
      var disabled := (code.Some? && !isTeacherCode) || isPending;
      if code.None? then
        ButtonProps("NULL", Destructive, disabled, isChanged)
      else if code.value == "Z0" then
        ButtonProps("Empty", Outline, disabled, isChanged)
      else if isTeacherCode then
        ButtonProps(code.value, if isConflict then Destructive else Outline, disabled, isChanged)
      else
        var t := FindTeacher(teachers, code.value);
        ButtonProps(if t.Some? then t.value.name else code.value, Outline, disabled, isChanged)
  }

  /**
   * The caption column of the decision table: "NULL" for a missing code,
   * "Empty" for "Z0", the code itself for a teacher code, and otherwise the
   * name of the first teacher with that code, or the raw code.
   */
  lemma {:induction false} ButtonLabels(s: Schedule, codeCounts: map<string, nat>, originals: map<int, Option<string>>,
                     teachers: seq<Teacher>, isPending: bool)
    ensures var r := GetButtonProps(Some(s), codeCounts, originals, teachers, isPending);
      && (s.teacherCode.None? ==> r.caption == "NULL" && r.variant == Destructive && r.disabled == isPending)
      && (s.teacherCode == Some("Z0") ==> r.caption == "Empty" && r.variant == Outline && r.disabled == isPending)
      && (s.teacherCode.Some? && s.teacherCode.value != "Z0" && HasTeacherCode(s) ==> r.caption == s.teacherCode.value)
      && (s.teacherCode.Some? && !HasTeacherCode(s) ==>
            r.disabled && r.variant == Outline
            && r.caption == (if exists t :: t in teachers && t.code == s.teacherCode.value
                           then FindTeacher(teachers, s.teacherCode.value).value.name else s.teacherCode.value))
  {
    if s.teacherCode.None? {
      NullNotTeacherCode(s);
    }
    if s.teacherCode == Some("Z0") {
      TeacherAndReserved("Z0");
    }
  }
}
