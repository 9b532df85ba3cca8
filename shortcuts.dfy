/**
 * The keyboard shortcuts the schedule pages share: the digit keys that pick a
 * weekday, JavaScript's remainder, and stepping a day index or a list
 * selection forwards and backwards with wrap-around.
 */
module Shortcuts {
  import opened Base
  import opened Text
  import opened Sorting
  import opened DaySplit

  /** The key strings from "1" to "5" in JavaScript's string order (`e.key >= "1" && e.key <= "5"`). */
  predicate InDigitRange(key: string)
  {
    LexLessEq("1", key) && LexLessEq(key, "5")
  }

  lemma {:induction false} DigitRangeLead(key: string)
    requires InDigitRange(key)
    ensures key != [] && '1' <= key[0] <= '5'
  {
  }

  /**
   * The day index a key selects: for a key in the digit range,
   * `Number.parseInt(key) - 1`, kept only when it is below `count` (`days.length`).
   */
  function DigitKeyIndex(key: string, count: int): (r: Option<int>)
    ensures r.Some? ==> InDigitRange(key) && 0 <= r.value < count
  {
    if InDigitRange(key) then
      DigitRangeLead(key);
      ParseIntLeadingDigit(key);
      var index := ParseInt(key).value - 1;
      if index < count then Some(index) else None
    else None
  }

  /** The keys "1" to "5" select indices 0 to 4 when the list has that many days. */
  lemma {:induction false} DigitKeyPicks(d: nat, count: int)
    requires 1 <= d <= 5
    ensures DigitKeyIndex([DigitChar(d)], count) == if d <= count then Some(d - 1) else None
  {
    var key := [DigitChar(d)];
    assert InDigitRange(key);
    ParseIntLeadingDigit(key);
  }

  /** A key that names something, like "ArrowUp", is past "5" in string order and selects no day. */
  lemma {:induction false} NamedKeyPicksNothing(name: string, count: int)
    requires |name| > 1 && 'A' <= name[0] <= 'Z'
    ensures DigitKeyIndex(name, count) == None
  {
    assert !LexLessEq(name, "5");
  }

  /** The keys "1" to "5" select indices 0 to 4 when the list has that many days; keys that name something do nothing. */
  lemma {:induction false} DigitKeys(d: nat, count: int, name: string)
    requires 1 <= d <= 5
    requires |name| > 1 && 'A' <= name[0] <= 'Z'
    ensures DigitKeyIndex([DigitChar(d)], count) == if d <= count then Some(d - 1) else None
    ensures DigitKeyIndex(name, count) == None
  {
    DigitKeyPicks(d, count);
    NamedKeyPicksNothing(name, count);
  }

  /**
   * `a % n` with JavaScript's remainder, which takes the sign of `a`; `None`
   * is the `NaN` of a zero divisor. Within one divisor of zero it leaves `a`
   * alone, and one divisor above that it subtracts `n` once.
   */
  function JsRem(a: int, n: nat): (r: Option<int>)
    ensures r.None? <==> n == 0
    ensures r.Some? ==> -(n as int) < r.value < n
    ensures r.Some? && a >= 0 ==> r.value >= 0
    ensures r.Some? && a <= 0 ==> r.value <= 0
    ensures r.Some? && -(n as int) < a < n ==> r.value == a
    ensures r.Some? && n <= a < 2 * n ==> r.value == a - n
  {
    if n == 0 then None
    else if a >= 0 then
      if n <= a < 2 * n then
        ModOnce(a, n);
        Some(a % n)
      else Some(a % n)
    else Some(-((-a) % n))
  }

  lemma {:induction false} ModOnce(a: int, n: nat)
    requires 0 < n <= a < 2 * n
    ensures a % n == a - n
  {
    var q := a / n;
    assert a == n * q + a % n;
  }

  /** ArrowLeft: `(selectedDay - 1 + days.length) % days.length`, where a `NaN` day stays `NaN`. */
  function PrevDay(day: Option<int>, count: nat): (r: Option<int>)
    ensures r.None? <==> day.None? || count == 0
    ensures r.Some? && day.value >= 1 - count ==> 0 <= r.value < count
  {
    if day.None? then None else JsRem(day.value - 1 + count, count)
  }

  /** ArrowRight: `(selectedDay + 1) % days.length`. */
  function NextDay(day: Option<int>, count: nat): (r: Option<int>)
    ensures r.None? <==> day.None? || count == 0
    ensures r.Some? && day.value >= -1 ==> 0 <= r.value < count
  {
    if day.None? then None else JsRem(day.value + 1, count)
  }

  /** From a day in range the arrows step to the neighbouring day, wrapping at both ends. */
  lemma {:induction false} DayArrows(d: int, count: nat)
    requires 0 <= d < count
    ensures PrevDay(Some(d), count) == Some(if d == 0 then count - 1 else d - 1)
    ensures NextDay(Some(d), count) == Some(if d == count - 1 then 0 else d + 1)
  {
  }

  /** ArrowLeft and ArrowRight undo each other on a day in range. */
  lemma {:induction false} DayArrowsUndo(d: int, count: nat)
    requires 0 <= d < count
    ensures NextDay(PrevDay(Some(d), count), count) == Some(d)
    ensures PrevDay(NextDay(Some(d), count), count) == Some(d)
  {
    DayArrows(d, count);
    DayArrows(PrevDay(Some(d), count).value, count);
    DayArrows(NextDay(Some(d), count).value, count);
  }

  /** `items[index]`: `undefined`, written `None`, for a `NaN` or out-of-range index. */
  function ItemAt<T>(items: seq<T>, index: Option<int>): Option<T>
  {
    if index.Some? && 0 <= index.value < |items| then Some(items[index.value]) else None
  }

  /** `items.indexOf(current)`, where an `undefined` current is never found. */
  function Position<T(==)>(items: seq<T>, current: Option<T>): (i: int)
    ensures -1 <= i < |items|
    ensures i == -1 <==> current.None? || current.value !in items
    ensures i >= 0 ==> items[i] == current.value
  {
    if current.None? then -1 else IndexOf(items, current.value)
  }

  /** The entry before the current one: `items[(index - 1 + items.length) % items.length]`. */
  function PrevItem<T(==)>(items: seq<T>, current: Option<T>): (r: Option<T>)
    ensures r.Some? <==> items != []
    ensures r.Some? ==> r.value in items
  {
    var i := Position(items, current);
    var index := JsRem(i - 1 + |items|, |items|);
    assert items != [] ==> 0 <= index.value < |items| by {
      if items != [] && i - 1 + |items| < 0 {
        assert |items| == 1 && index.value == 0;
      }
    }
    ItemAt(items, index)
  }

  /** The entry after the current one: `items[(index + 1) % items.length]`. */
  function NextItem<T(==)>(items: seq<T>, current: Option<T>): (r: Option<T>)
    ensures r.Some? <==> items != []
    ensures r.Some? ==> r.value in items
  {
    var i := Position(items, current);
    ItemAt(items, JsRem(i + 1, |items|))
  }

  /** From the entry at `i` of a list without repeats the steps reach its neighbours, wrapping at both ends. */
  lemma {:induction false} ItemArrows<T>(items: seq<T>, i: nat)
    requires i < |items| && Distinct(items)
    ensures PrevItem(items, Some(items[i])) == Some(items[if i == 0 then |items| - 1 else i - 1])
    ensures NextItem(items, Some(items[i])) == Some(items[if i == |items| - 1 then 0 else i + 1])
  {
    assert Position(items, Some(items[i])) == i;
  }

  /** Stepping back and then forward, or forward and then back, returns to a listed entry. */
  lemma {:induction false} ItemArrowsUndo<T>(items: seq<T>, x: T)
    requires Distinct(items) && x in items
    ensures NextItem(items, PrevItem(items, Some(x))) == Some(x)
    ensures PrevItem(items, NextItem(items, Some(x))) == Some(x)
  {
    var i := IndexOf(items, x);
    var n := |items|;
    ItemArrows(items, i);
    ItemArrows(items, if i == 0 then n - 1 else i - 1);
    ItemArrows(items, if i == n - 1 then 0 else i + 1);
  }

  /**
   * From an entry that is not listed (`indexOf` gives -1) the step forward
   * reaches the first entry, but the step back the one before the last.
   */
  lemma {:induction false} UnlistedItemArrows<T>(items: seq<T>, current: Option<T>)
    requires items != [] && (current.None? || current.value !in items)
    ensures NextItem(items, current) == Some(items[0])
    ensures PrevItem(items, current) == Some(items[if |items| >= 2 then |items| - 2 else 0])
  {
  }

  /**
   * The day index after a key on the signed-in pages: "1" to "5" pick a
   * day, ArrowLeft and ArrowRight step through the week from the current index.
   */
  function DayIndexAfterKey(key: string, day: Option<int>): Option<int>
  {
    var picked := match DigitKeyIndex(key, |Days|)
      case Some(index) => Some(index)
      case None => day;
    if key == "ArrowLeft" then PrevDay(day, |Days|)
    else if key == "ArrowRight" then NextDay(day, |Days|)
    else picked
  }

  /** The day-index half of the signed-in pages' key handlers, step by step as they run it. */
  method KeyDayIndex(key: string, day: Option<int>) returns (r: Option<int>)
    ensures r == DayIndexAfterKey(key, day)
  {
    r := day;
    var picked := DigitKeyIndex(key, |Days|);
    if picked.Some? {
      r := picked;
    }
    if key == "ArrowLeft" {
      r := PrevDay(day, |Days|);
    } else if key == "ArrowRight" {
      r := NextDay(day, |Days|);
    }
  }

  /**
   * One step through a list from the current entry, as the pages' arrow keys
   * take it: `items[(index + 1) % items.length]` forwards and
   * `items[(index - 1 + items.length) % items.length]` backwards.
   */
  method StepItem<T(==)>(items: seq<T>, current: Option<T>, forwards: bool) returns (r: Option<T>)
    ensures r == if forwards then NextItem(items, current) else PrevItem(items, current)
  {
    var index := Position(items, current);
    if forwards {
      r := ItemAt(items, JsRem(index + 1, |items|));
    } else {
      r := ItemAt(items, JsRem(index - 1 + |items|, |items|));
    }
  }

  /** No key takes a day index in range out of range. */
  lemma {:induction false} DayIndexKeysStayInRange(key: string, d: int)
    requires 0 <= d < |Days|
    ensures var r := DayIndexAfterKey(key, Some(d)); r.Some? && 0 <= r.value < |Days|
  {
  }

  /**
   * The keys "1" to "5" select Monday to Friday, and the day arrows step to
   * the neighbouring day and back.
   */
  lemma {:induction false} DayIndexKeys(k: nat, d: int)
    requires 1 <= k <= 5 && 0 <= d < |Days|
    ensures DayIndexAfterKey([DigitChar(k)], Some(d)) == Some(k - 1)
    ensures DayIndexAfterKey("ArrowLeft", Some(d)) == Some(if d == 0 then 4 else d - 1)
    ensures DayIndexAfterKey("ArrowRight", DayIndexAfterKey("ArrowLeft", Some(d))) == Some(d)
  {
    DigitKeyPicks(k, |Days|);
    DayArrows(d, |Days|);
    DayArrowsUndo(d, |Days|);
  }

  /** `Math.max(0, Math.min(4, weekday - 1))`: the weekday of `getDay()` as a tab index. */
  function DefaultDayIndex(weekday: int): (r: int)
    ensures 0 <= r <= 4
    ensures 1 <= weekday <= 5 ==> r == weekday - 1
    ensures weekday < 1 ==> r == 0
    ensures weekday > 5 ==> r == 4
  {
    var lower := if 4 < weekday - 1 then 4 else weekday - 1;
    if 0 < lower then lower else 0
  }
}
