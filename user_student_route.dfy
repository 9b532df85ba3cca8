/**
 * The signed-in student page: a class and a weekday index, kept in browser
 * storage, changed by the tabs, the class picker and the keyboard.
 */
module UserStudentRoute {
  import opened Base
  import opened Text
  import opened Sorting
  import opened DaySplit
  import opened Shortcuts

  const DefaultClass: string := "X-A"

  /** The class after a key: ArrowUp selects the previous class, ArrowDown the next; `None` is `undefined`. */
  function ClassAfterKey(classes: seq<string>, key: string, current: Option<string>): Option<string>
  {
    if key == "ArrowUp" then PrevItem(classes, current)
    else if key == "ArrowDown" then NextItem(classes, current)
    else current
  }

  /**
   * From a listed class the class keys always land on a listed class, and
   * ArrowDown undoes ArrowUp on a listed class; other keys keep the class.
   */
  lemma {:induction false} ClassKeys(classes: seq<string>, key: string, c: string)
    requires Distinct(classes) && c in classes
    ensures var r := ClassAfterKey(classes, key, Some(c)); r.Some? && r.value in classes
    ensures ClassAfterKey(classes, "ArrowDown", ClassAfterKey(classes, "ArrowUp", Some(c))) == Some(c)
    ensures key != "ArrowUp" && key != "ArrowDown" ==> ClassAfterKey(classes, key, Some(c)) == Some(c)
  {
    ItemArrowsUndo(classes, c);
  }

  /** The page's state: the selected class (`None` once set to `undefined`) and the selected day index (`None` is `NaN`). */
  class StudentPage {
    const classes: seq<string>
    var selectedClass: Option<string>
    var selectedDay: Option<int>

    /** Stored values win; otherwise class "X-A" and today's weekday clamped to the tabs. */
    constructor (classes: seq<string>, storedClass: Option<string>, storedDay: Option<int>, weekday: int)
      ensures this.classes == classes
      ensures selectedClass == Some(storedClass.GetOr(DefaultClass))
      ensures selectedDay == Some(storedDay.GetOr(DefaultDayIndex(weekday)))
    {
      this.classes := classes;
      selectedClass := Some(storedClass.GetOr(DefaultClass));
      selectedDay := Some(storedDay.GetOr(DefaultDayIndex(weekday)));
    }

    method HandleClassChange(newClass: string)
      modifies this
      ensures selectedClass == Some(newClass) && selectedDay == old(selectedDay)
    {
      selectedClass := Some(newClass);
    }

    /** The tabs pass the index as a string, which `Number` converts. */
    method HandleDayChange(newDayIndex: string)
      modifies this
      ensures selectedDay == ToNumber(newDayIndex) && selectedClass == old(selectedClass)
    {
      selectedDay := ToNumber(newDayIndex);
    }

    method HandleKeyPress(key: string)
      modifies this
      ensures selectedDay == DayIndexAfterKey(key, old(selectedDay))
      ensures selectedClass == ClassAfterKey(classes, key, old(selectedClass))
    {
      var day, cls := selectedDay, selectedClass;
      var newDay := KeyDayIndex(key, day);
      var newClass := cls;
      if key == "ArrowUp" {
        newClass := StepItem(classes, cls, false);
      } else if key == "ArrowDown" {
        newClass := StepItem(classes, cls, true);
      }
      selectedDay, selectedClass := newDay, newClass;
    }
  }
}
