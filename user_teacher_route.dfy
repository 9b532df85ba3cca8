/**
 * The signed-in teacher page: the sorted list of distinct teacher names, the
 * selected name and the selected weekday index, changed by the pickers and
 * the keyboard.
 */
module UserTeacherRoute {
  import opened Base
  import opened Text
  import opened Records
  import opened Sorting
  import opened DaySplit
  import opened Shortcuts

  /** `uniqueTeacherNames`: the distinct names, sorted; none while the query has no data. */
  function UniqueTeacherNames(data: Option<seq<Teacher>>): (r: seq<string>)
    ensures data.None? ==> r == []
    ensures StrictlySorted(r)
    ensures forall n :: n in r <==> data.Some? && exists t :: t in data.value && t.name == n
  {
    if data.None? then []
    else
      var names := NamesOf(data.value);
      SortDedupe(names);
      forall n | n in names
        ensures exists t :: t in data.value && t.name == n
      {
        var i :| 0 <= i < |names| && names[i] == n;
        assert data.value[i] in data.value;
      }
      Sort(Dedupe(names))
  }

  /**
   * The list is the only one of its kind: any strictly increasing list of
   * exactly the teachers' names is `uniqueTeacherNames`, so neither the order
   * of the rows nor repeated names change it.
   */
  lemma {:induction false} UniqueTeacherNamesCanonical(data: Option<seq<Teacher>>, names: seq<string>)
    requires StrictlySorted(names)
    requires forall n :: n in names <==> data.Some? && exists t :: t in data.value && t.name == n
    ensures names == UniqueTeacherNames(data)
  {
    StrictlySortedUnique(names, UniqueTeacherNames(data));
  }

  /** An empty string and `undefined` are both falsy. */
  predicate Falsy(name: Option<string>)
  {
    name.None? || name.value == ""
  }

  /** The effect that selects the first name when names exist and none is selected. */
  function DefaultSelection(names: seq<string>, selected: Option<string>): (r: Option<string>)
    ensures names != [] && Falsy(selected) ==> r == Some(names[0])
    ensures names == [] || !Falsy(selected) ==> r == selected
  {
    if |names| > 0 && Falsy(selected) then Some(names[0]) else selected
  }

  /**
   * The effect settles after one run: running it again changes nothing; and
   * once names exist, a selection is in the list or was chosen before.
   */
  lemma {:induction false} DefaultSelectionSettles(names: seq<string>, selected: Option<string>)
    ensures DefaultSelection(names, DefaultSelection(names, selected)) == DefaultSelection(names, selected)
    ensures names != [] ==> var r := DefaultSelection(names, selected); r.Some? && (r.value in names || r == selected)
  {
  }

  /** The teacher after a key: ArrowUp selects the previous name, ArrowDown the next; `None` is `undefined`. */
  function TeacherAfterKey(names: seq<string>, key: string, current: Option<string>): Option<string>
  {
    if key == "ArrowUp" then PrevItem(names, current)
    else if key == "ArrowDown" then NextItem(names, current)
    else current
  }

  /**
   * Over the unique names the teacher keys step to the neighbouring name and
   * ArrowDown undoes ArrowUp; with no names they select `undefined`.
   */
  lemma {:induction false} TeacherKeys(data: Option<seq<Teacher>>, key: string, name: string)
    ensures var names := UniqueTeacherNames(data);
      name in names ==>
        TeacherAfterKey(names, "ArrowDown", TeacherAfterKey(names, "ArrowUp", Some(name))) == Some(name) &&
        TeacherAfterKey(names, "ArrowUp", TeacherAfterKey(names, "ArrowDown", Some(name))) == Some(name)
    ensures var names := UniqueTeacherNames(data);
      names == [] && (key == "ArrowUp" || key == "ArrowDown") ==> TeacherAfterKey(names, key, Some(name)) == None
  {
    var names := UniqueTeacherNames(data);
    if name in names {
      forall i, j | 0 <= i < j < |names|
        ensures names[i] != names[j]
      {
        LexLessIrreflexive(names[i]);
      }
      ItemArrowsUndo(names, name);
    }
  }

  /** The page's state: the unique names, the selected name (`None` once set to `undefined`) and the day index (`None` is `NaN`). */
  class TeacherPage {
    var names: seq<string>
    var selectedName: Option<string>
    var selectedDay: Option<int>

    /** Before the teachers arrive: no names, the empty selection, and the stored or today's day index. */
    constructor (storedDay: Option<int>, weekday: int)
      ensures names == [] && selectedName == Some("")
      ensures selectedDay == Some(storedDay.GetOr(DefaultDayIndex(weekday)))
    {
      names := [];
      selectedName := Some("");
      selectedDay := Some(storedDay.GetOr(DefaultDayIndex(weekday)));
    }

    /** New query data: the names are recomputed and the default-selection effect runs. */
    method TeachersLoaded(data: Option<seq<Teacher>>)
      modifies this
      ensures names == UniqueTeacherNames(data)
      ensures selectedName == DefaultSelection(names, old(selectedName))
      ensures selectedDay == old(selectedDay)
    {
      var unique := UniqueTeacherNames(data);
      var selected := selectedName;
      if |unique| > 0 && Falsy(selected) {
        selected := Some(unique[0]);
      }
      names, selectedName := unique, selected;
    }

    method HandleTeacherChange(value: string)
      modifies this
      ensures selectedName == Some(value) && names == old(names) && selectedDay == old(selectedDay)
    {
      selectedName := Some(value);
    }

    method HandleDayChange(value: string)
      modifies this
      ensures selectedDay == ToNumber(value) && names == old(names) && selectedName == old(selectedName)
    {
      selectedDay := ToNumber(value);
    }

    method HandleKeyPress(key: string)
      modifies this
      ensures selectedDay == DayIndexAfterKey(key, old(selectedDay))
      ensures selectedName == TeacherAfterKey(names, key, old(selectedName))
      ensures names == old(names)
    {
      var day, name := selectedDay, selectedName;
      var newDay := KeyDayIndex(key, day);
      var newName := name;
      if key == "ArrowUp" {
        newName := StepItem(names, name, false);
      } else if key == "ArrowDown" {
        newName := StepItem(names, name, true);
      }
      selectedDay, selectedName := newDay, newName;
    }
  }
}
