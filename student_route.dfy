/**
 * The public student page: browser storage reset when a new build is
 * deployed, the selected class and the selected day name, and its keyboard
 * shortcuts.
 */
module StudentRoute {
  import opened Base
  import opened Text
  import opened Sorting
  import opened DaySplit
  import opened Shortcuts

  /** The browser's `localStorage`: string values under string keys. */
  class LocalStorage {
    var items: map<string, string>

    constructor (items: map<string, string>)
      ensures this.items == items
    {
      this.items := items;
    }

    /** `getItem`: the stored value, or `null` (`None`). */
    function GetItem(key: string): (r: Option<string>)
      reads this
      ensures r.Some? <==> key in items
      ensures r.Some? ==> r.value == items[key]
    {
      if key in items then Some(items[key]) else None
    }

    method Clear()
      modifies this
      ensures items == map[]
    {
      items := map[];
    }

    method SetItem(key: string, value: string)
      modifies this
      ensures items == old(items)[key := value]
    {
      items := items[key := value];
    }
  }

  const CommitHashKey: string := "VITE_GIT_COMMIT_HASH"

  /**
   * The storage after the effect, step by step as the page runs it: a
   * missing or empty stored hash resets the storage to the current hash, and
   * then a stored hash other than the current one resets it again.
   */
  function HashSynced(items: map<string, string>, currentHash: string): map<string, string>
  {
    var stored := if CommitHashKey in items then Some(items[CommitHashKey]) else None;
    var afterFirst := if stored.None? || stored.value == "" then map[CommitHashKey := currentHash] else items;
    if stored != Some(currentHash) then map[CommitHashKey := currentHash] else afterFirst
  }

  /**
   * The effect's outcome: the storage always ends holding the current hash;
   * it is left alone exactly when it already held that hash and the hash is
   * not empty, and otherwise everything else is cleared. A second run
   * changes nothing.
   */
  lemma {:induction false} HashSyncedMeans(items: map<string, string>, currentHash: string)
    ensures var r := HashSynced(items, currentHash);
      CommitHashKey in r && r[CommitHashKey] == currentHash &&
      (r == items <==> CommitHashKey in items && items[CommitHashKey] == currentHash && (currentHash != "" || items == map[CommitHashKey := ""])) &&
      (r != items ==> r.Keys == {CommitHashKey})
    ensures HashSynced(HashSynced(items, currentHash), currentHash) == HashSynced(items, currentHash)
  {
    var r := HashSynced(items, currentHash);
    if CommitHashKey in items && items[CommitHashKey] == currentHash && currentHash != "" {
      assert r == items;
    } else {
      assert r == map[CommitHashKey := currentHash];
      assert r.Keys == {CommitHashKey};
    }
  }

  /** The commit-hash effect on the page's storage. */
  method SyncCommitHash(storage: LocalStorage, currentHash: string)
    modifies storage
    ensures storage.items == HashSynced(old(storage.items), currentHash)
  {
    var storedHash := storage.GetItem(CommitHashKey);
    if storedHash.None? || storedHash.value == "" {
      storage.Clear();
      storage.SetItem(CommitHashKey, currentHash);
    }
    if storedHash != Some(currentHash) {
      storage.Clear();
      storage.SetItem(CommitHashKey, currentHash);
    }
  }

  /** The classes of the class picker, in the order the arrow keys walk them. */
  const Classes: seq<string> := [
    "X-A", "X-B", "X-C", "X-D", "X-E", "X-F", "X-G", "X-H", "X-I", "X-J",
    "XI-A", "XI-B", "XI-C", "XI-D", "XI-E", "XI-F", "XI-G", "XI-H", "XI-I", "XI-J",
    "XII-A", "XII-B", "XII-C", "XII-D", "XII-E", "XII-F", "XII-G", "XII-H", "XII-I", "XII-J"]

  const DefaultClass: string := "X-A"

  /** `days[getDay() - 1] || "Senin"`: today's name on a weekday, Monday's otherwise. */
  function DefaultDay(weekday: int): (r: string)
    ensures r in Days
    ensures 1 <= weekday <= |Days| ==> r == Days[weekday - 1]
    ensures !(1 <= weekday <= |Days|) ==> r == "Senin"
  {
    var today := if 0 <= weekday - 1 < |Days| then Days[weekday - 1] else "";
    if today != "" then today else "Senin"
  }

  /** The day after a key: "1" to "5" select that weekday by name. */
  function DayAfterKey(key: string, day: string): string
  {
    match DigitKeyIndex(key, |Days|)
    case Some(index) => Days[index]
    case None => day
  }

  /** The class after a key: ArrowUp selects the next class and ArrowDown the previous one. */
  function ClassAfterKey(classes: seq<string>, key: string, current: Option<string>): Option<string>
  {
    if key == "ArrowUp" then NextItem(classes, current)
    else if key == "ArrowDown" then PrevItem(classes, current)
    else current
  }

  /** The digit keys pick the weekday by name; keys that name something, the arrow keys among them, leave the day alone. */
  lemma {:induction false} DayKeys(k: nat, name: string, day: string)
    requires 1 <= k <= 5
    requires |name| > 1 && 'A' <= name[0] <= 'Z'
    ensures DayAfterKey([DigitChar(k)], day) == Days[k - 1]
    ensures DayAfterKey(name, day) == day
  {
    DigitKeyPicks(k, |Days|);
    NamedKeyPicksNothing(name, |Days|);
  }

  /**
   * The class keys walk a list without repeats forwards on ArrowUp, wrapping
   * from the last class to the first, and backwards on ArrowDown; from a
   * class not in the list ArrowUp selects the first class and ArrowDown the
   * one before the last.
   */
  lemma {:induction false} ClassKeys(classes: seq<string>, i: nat, other: string)
    requires Distinct(classes) && i < |classes| && other !in classes
    ensures ClassAfterKey(classes, "ArrowUp", Some(classes[i])) == Some(classes[if i == |classes| - 1 then 0 else i + 1])
    ensures ClassAfterKey(classes, "ArrowDown", Some(classes[i])) == Some(classes[if i == 0 then |classes| - 1 else i - 1])
    ensures ClassAfterKey(classes, "ArrowUp", Some(other)) == Some(classes[0])
    ensures ClassAfterKey(classes, "ArrowDown", Some(other)) == Some(classes[if |classes| >= 2 then |classes| - 2 else 0])
  {
    ItemArrows(classes, i);
    UnlistedItemArrows(classes, Some(other));
  }

  /** The page's state: the selected class (`None` once set to `undefined`) and the selected day name. */
  class StudentPage {
    const classes: seq<string>
    var selectedClass: Option<string>
    var selectedDay: string

    /** Stored values win; otherwise class "X-A" and today's weekday name. */
    constructor (storedClass: Option<string>, storedDay: Option<string>, weekday: int)
      ensures classes == Classes
      ensures selectedClass == Some(storedClass.GetOr(DefaultClass))
      ensures selectedDay == storedDay.GetOr(DefaultDay(weekday))
    {
      classes := Classes;
      selectedClass := Some(storedClass.GetOr(DefaultClass));
      selectedDay := storedDay.GetOr(DefaultDay(weekday));
    }

    method HandleClassChange(newClass: string)
      modifies this
      ensures selectedClass == Some(newClass) && selectedDay == old(selectedDay)
    {
      selectedClass := Some(newClass);
    }

    method HandleDayChange(newDay: string)
      modifies this
      ensures selectedDay == newDay && selectedClass == old(selectedClass)
    {
      selectedDay := newDay;
    }

    method HandleKeyPress(key: string)
      modifies this
      ensures selectedDay == DayAfterKey(key, old(selectedDay))
      ensures selectedClass == ClassAfterKey(classes, key, old(selectedClass))
    {
      var day, cls := selectedDay, selectedClass;
      var newDay, newClass := day, cls;
      var picked := DigitKeyIndex(key, |Days|);
      if picked.Some? {
        newDay := Days[picked.value];
      }
      if key == "ArrowUp" {
        newClass := StepItem(classes, cls, true);
      } else if key == "ArrowDown" {
        newClass := StepItem(classes, cls, false);
      }
      selectedDay, selectedClass := newDay, newClass;
    }
  }
}
