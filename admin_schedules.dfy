/**
 * The admin schedules page: the records of the selected day, the edits the
 * administrator has made (an object keyed by record id), the teacher codes the
 * records had when the day was loaded, and the dialogs that lead to a save.
 */
module AdminSchedules {
  import opened Base
  import opened Records
  import opened JsCollections
  import DaySplit
  import SchedulesTable

  function ScheduleId(s: Schedule): int
  {
    s.id
  }

  /** The records of day `day`, in order. */
  function OfDay(xs: seq<Schedule>, day: int): (r: seq<Schedule>)
    ensures |r| <= |xs|
    ensures forall s :: s in r <==> s in xs && s.day == day
  {
    Filter(xs, (s: Schedule) => s.day == day)
  }

  /** `baseSchedules`: the loaded records of the day, or none when nothing was loaded. */
  function BaseOf(data: Option<seq<Schedule>>, day: int): (r: seq<Schedule>)
    ensures forall s :: s in r <==> data.Some? && s in data.value && s.day == day
  {
    match data
    case None => []
    case Some(xs) => OfDay(xs, day)
  }

  /** `filteredSchedules`: the day's records with the edits laid over them by id. */
  function FilteredOf(base: seq<Schedule>, edits: seq<Schedule>): seq<Schedule>
  {
    if |edits| == 0 then base else Overlaid(base, edits, ScheduleId)
  }

  /**
   * With no edits the grid shows the day's records as they are; otherwise an
   * edited record takes the place of the record with its id, and edits of
   * records not among them come last, in order.
   */
  lemma {:induction false} FilteredShape(base: seq<Schedule>, edits: seq<Schedule>)
    requires DistinctBy(base, ScheduleId) && DistinctBy(edits, ScheduleId)
    ensures edits == [] ==> FilteredOf(base, edits) == base
    ensures |FilteredOf(base, edits)| == |base| + |Unmatched(edits, base, ScheduleId)|
    ensures forall i :: 0 <= i < |base| ==> FilteredOf(base, edits)[i].id == base[i].id
    ensures forall i :: 0 <= i < |base| && base[i].id in KeysBy(edits, ScheduleId) ==> FilteredOf(base, edits)[i] in edits
    ensures forall i :: 0 <= i < |base| && base[i].id !in KeysBy(edits, ScheduleId) ==> FilteredOf(base, edits)[i] == base[i]
    ensures FilteredOf(base, edits)[|base|..] == Unmatched(edits, base, ScheduleId)
  {
    if edits != [] {
      OverlaidShape(base, edits, ScheduleId);
    } else {
      assert Unmatched(edits, base, ScheduleId) == [];
    }
  }

  /** The `id -> teacher_code` object the effect builds from the day's records; a later record wins. */
  function OriginalCodesOf(base: seq<Schedule>): map<int, Option<string>>
  {
    if base == [] then map[]
    else
      var last := base[|base| - 1];
      OriginalCodesOf(base[..|base| - 1])[last.id := last.teacherCode]
  }

  /** The effect's loop: `codes[s.id] = s.teacher_code` for each record in order. */
  method BuildOriginals(base: seq<Schedule>) returns (codes: map<int, Option<string>>)
    ensures codes == OriginalCodesOf(base)
  {
    codes := map[];
    for i := 0 to |base|
      invariant codes == OriginalCodesOf(base[..i])
    {
      assert base[..i + 1][..i] == base[..i];
      codes := codes[base[i].id := base[i].teacherCode];
    }
    assert base[..|base|] == base;
  }

  /** Exactly the ids of the day's records are known. */
  lemma {:induction false} OriginalCodesKeys(base: seq<Schedule>)
    ensures forall id :: id in OriginalCodesOf(base) <==> id in KeysBy(base, ScheduleId)
  {
    if base != [] {
      var prefix := base[..|base| - 1];
      OriginalCodesKeys(prefix);
      assert KeysBy(base, ScheduleId) == KeysBy(prefix, ScheduleId) + [base[|base| - 1].id];
    }
  }

  /** A record no later record shares its id with has its own code recorded. */
  lemma {:induction false} OriginalCodesLast(base: seq<Schedule>, i: nat)
    requires i < |base| && forall j :: i < j < |base| ==> base[j].id != base[i].id
    ensures base[i].id in OriginalCodesOf(base) && OriginalCodesOf(base)[base[i].id] == base[i].teacherCode
  {
    if i < |base| - 1 {
      var prefix := base[..|base| - 1];
      assert prefix[i] == base[i];
      forall j | i < j < |prefix|
        ensures prefix[j].id != prefix[i].id
      {
        assert prefix[j] == base[j];
      }
      OriginalCodesLast(prefix, i);
    }
  }

  /** `getChangedSchedules`: the edits whose id is truthy, whose original is known, and whose code differs from it. */
  function ChangesOf(edits: seq<Schedule>, originals: map<int, Option<string>>): (r: seq<Schedule>)
    ensures |r| <= |edits|
    ensures forall s :: s in r <==> s in edits && SchedulesTable.Changed(s, originals)
  {
    if edits == [] then []
    else
      var last := edits[|edits| - 1];
      assert edits == edits[..|edits| - 1] + [last];
      ChangesOf(edits[..|edits| - 1], originals) + (if SchedulesTable.Changed(last, originals) then [last] else [])
  }

  /** Choosing the code a record had when loaded again is no change. */
  lemma {:induction false} RechosenIsNoChange(edits: seq<Schedule>, originals: map<int, Option<string>>, s: Schedule)
    requires s.id in originals && s.teacherCode == originals[s.id]
    ensures s !in ChangesOf(edits, originals)
  {
  }

  /** The edits after `handleSubmit`: the selected record with the chosen code filed under its id, when both are set and the code is non-empty. */
  function SubmittedEdits(edited: seq<Entry<Schedule>>, selected: Option<Schedule>, code: Option<string>): seq<Entry<Schedule>>
  {
    if selected.Some? && code.Some? && code.value != "" then Put(edited, selected.value.id, selected.value.(teacherCode := code))
    else edited
  }

  /**
   * A submit with a record and a non-empty code chosen files that record with
   * that code under its id and leaves the other ids alone; otherwise the edits
   * stay as they were. Edits stay filed by their own ids.
   */
  lemma {:induction false} SubmittedEditsMeans(edited: seq<Entry<Schedule>>, selected: Option<Schedule>, code: Option<string>)
    requires KeysDistinct(edited) && forall e :: e in edited ==> e.key == e.value.id
    ensures var r := SubmittedEdits(edited, selected, code);
      KeysDistinct(r) && forall e :: e in r ==> e.key == e.value.id
    ensures var r := SubmittedEdits(edited, selected, code);
      var chosen := selected.Some? && code.Some? && code.value != "";
      (chosen ==> Find(r, selected.value.id) == Some(selected.value.(teacherCode := code)))
      && (chosen ==> forall id :: id != selected.value.id ==> Find(r, id) == Find(edited, id))
      && (!chosen ==> r == edited)
  {
    if selected.Some? && code.Some? && code.value != "" {
      var changed := selected.value.(teacherCode := code);
      PutFind(edited, changed.id, changed);
      PutFiled(edited, ScheduleId, changed);
    }
  }

  /** The page's state. `edited` is `editedSchedulesMap`, each record filed under its own id. */
  class SchedulesEditor {
    var data: Option<seq<Schedule>>
    var selectedDay: string
    var edited: seq<Entry<Schedule>>
    var originals: map<int, Option<string>>
    var selected: Option<Schedule>
    var selectedCode: Option<string>
    var dialogOpen: bool
    var confirmOpen: bool
    var recapCount: nat

    predicate Valid()
      reads this
    {
      KeysDistinct(edited) && forall e :: e in edited ==> e.key == e.value.id
    }

    function DayIndex(): int
      reads this
    {
      IndexOf(DaySplit.Days, selectedDay)
    }

    function Base(): seq<Schedule>
      reads this
    {
      BaseOf(data, DayIndex())
    }

    /** `Object.values(editedSchedulesMap)`. */
    function Edits(): seq<Schedule>
      reads this
      requires Valid()
    {
      ObjectValues(edited)
    }

    function Filtered(): seq<Schedule>
      reads this
      requires Valid()
    {
      FilteredOf(Base(), Edits())
    }

    function Changes(): seq<Schedule>
      reads this
      requires Valid()
    {
      ChangesOf(Edits(), originals)
    }

    predicate HasChanges()
      reads this
      requires Valid()
    {
      |Changes()| > 0
    }

    /** The page opens on Monday with no edits; the effect then records the day's original codes. */
    constructor(data: Option<seq<Schedule>>)
      ensures Valid()
      ensures this.data == data && selectedDay == "Senin" && edited == []
      ensures originals == OriginalCodesOf(Base())
      ensures selected == None && selectedCode == None
      ensures !dialogOpen && !confirmOpen && recapCount == 0
    {
      this.data := data;
      selectedDay := "Senin";
      edited := [];
      selected := None;
      selectedCode := None;
      dialogOpen := false;
      confirmOpen := false;
      recapCount := 0;
      assert DaySplit.Days[0] == "Senin";
      originals := OriginalCodesOf(BaseOf(data, 0));
    }

    /** The effect that runs when the day's records change: `codes[s.id] = s.teacher_code` for each. */
    method SyncOriginals()
      modifies this
      ensures originals == OriginalCodesOf(Base())
      ensures data == old(data) && selectedDay == old(selectedDay) && edited == old(edited)
      ensures selected == old(selected) && selectedCode == old(selectedCode)
      ensures dialogOpen == old(dialogOpen) && confirmOpen == old(confirmOpen) && recapCount == old(recapCount)
    {
      originals := BuildOriginals(Base());
    }

    /** A day tab: ignored while there are unsaved changes; otherwise the day changes and its codes are recorded. */
    method ChangeDay(day: string)
      requires Valid()
      modifies this
      ensures Valid()
      ensures old(HasChanges()) ==> selectedDay == old(selectedDay) && originals == old(originals)
      ensures !old(HasChanges()) ==> selectedDay == day && originals == OriginalCodesOf(Base())
      ensures data == old(data) && edited == old(edited)
      ensures selected == old(selected) && selectedCode == old(selectedCode)
      ensures dialogOpen == old(dialogOpen) && confirmOpen == old(confirmOpen) && recapCount == old(recapCount)
    {
      if !HasChanges() {
        selectedDay := day;
        SyncOriginals();
      }
    }

    /** `handleCellClick`: opens the dialog on a cell, preselecting its code. */
    method HandleCellClick(cell: Option<Schedule>)
      modifies this
      ensures dialogOpen && selected == cell
      ensures selectedCode == if cell.Some? then cell.value.teacherCode else None
      ensures data == old(data) && selectedDay == old(selectedDay) && edited == old(edited) && originals == old(originals)
      ensures confirmOpen == old(confirmOpen) && recapCount == old(recapCount)
    {
      dialogOpen := true;
      selected := cell;
      selectedCode := if cell.Some? then cell.value.teacherCode else None;
    }

    /** The combo box's `onChange`. */
    method ChooseCode(code: string)
      modifies this
      ensures selectedCode == Some(code)
      ensures data == old(data) && selectedDay == old(selectedDay) && edited == old(edited) && originals == old(originals)
      ensures selected == old(selected) && dialogOpen == old(dialogOpen)
      ensures confirmOpen == old(confirmOpen) && recapCount == old(recapCount)
    {
      selectedCode := Some(code);
    }

    /** `handleDialogOpenChange`: closing the dialog forgets the selection. */
    method HandleDialogOpenChange(open: bool)
      modifies this
      ensures dialogOpen == open
      ensures !open ==> selected == None && selectedCode == None
      ensures open ==> selected == old(selected) && selectedCode == old(selectedCode)
      ensures data == old(data) && selectedDay == old(selectedDay) && edited == old(edited) && originals == old(originals)
      ensures confirmOpen == old(confirmOpen) && recapCount == old(recapCount)
    {
      dialogOpen := open;
      if !open {
        selected := None;
        selectedCode := None;
      }
    }

    /**
     * `handleSubmit`: with a record selected and a non-empty code chosen, the
     * record with that code is filed under its id, replacing any earlier edit
     * of it and leaving the other edits alone; the dialog closes either way.
     */
    method HandleSubmit()
      requires Valid()
      modifies this
      ensures Valid()
      ensures edited == SubmittedEdits(old(edited), old(selected), old(selectedCode))
      ensures !dialogOpen && selected == None && selectedCode == None
      ensures data == old(data) && selectedDay == old(selectedDay) && originals == old(originals)
      ensures confirmOpen == old(confirmOpen) && recapCount == old(recapCount)
    {
      SubmittedEditsMeans(edited, selected, selectedCode);
      if selected.Some? && selectedCode.Some? && selectedCode.value != "" {
        var changed := selected.value.(teacherCode := selectedCode);
        edited := Put(edited, changed.id, changed);
      }
      dialogOpen := false;
      selected := None;
      selectedCode := None;
    }

    /** `handleSave`: with no real change the edits are dropped; otherwise their number is shown for confirmation. */
    method HandleSave()
      requires Valid()
      modifies this
      ensures Valid()
      ensures old(|Changes()|) == 0 ==> edited == [] && confirmOpen == old(confirmOpen) && recapCount == old(recapCount)
      ensures old(|Changes()|) > 0 ==> edited == old(edited) && confirmOpen && recapCount == old(|Changes()|)
      ensures data == old(data) && selectedDay == old(selectedDay) && originals == old(originals)
      ensures selected == old(selected) && selectedCode == old(selectedCode) && dialogOpen == old(dialogOpen)
    {
      var changes := Changes();
      if |changes| == 0 {
        edited := [];
        return;
      }
      recapCount := |changes|;
      confirmOpen := true;
    }

    /** `handleConfirmSave`: closes the confirmation and sends the changed records. */
    method HandleConfirmSave() returns (payload: seq<Schedule>)
      requires Valid()
      modifies this
      ensures payload == old(Changes())
      ensures !confirmOpen
      ensures data == old(data) && selectedDay == old(selectedDay) && edited == old(edited) && originals == old(originals)
      ensures selected == old(selected) && selectedCode == old(selectedCode) && dialogOpen == old(dialogOpen)
      ensures recapCount == old(recapCount)
    {
      confirmOpen := false;
      payload := Changes();
    }

    /** A successful save: the records are reloaded, the edits cleared and the original codes recorded anew. */
    method SaveSucceeded(reloaded: Option<seq<Schedule>>)
      modifies this
      ensures Valid()
      ensures data == reloaded && edited == [] && originals == OriginalCodesOf(Base())
      ensures selectedDay == old(selectedDay)
      ensures selected == old(selected) && selectedCode == old(selectedCode) && dialogOpen == old(dialogOpen)
      ensures confirmOpen == old(confirmOpen) && recapCount == old(recapCount)
    {
      data := reloaded;
      edited := [];
      SyncOriginals();
    }

    /** "Discard Changes". */
    method Discard()
      modifies this
      ensures Valid()
      ensures edited == []
      ensures data == old(data) && selectedDay == old(selectedDay) && originals == old(originals)
      ensures selected == old(selected) && selectedCode == old(selectedCode) && dialogOpen == old(dialogOpen)
      ensures confirmOpen == old(confirmOpen) && recapCount == old(recapCount)
    {
      edited := [];
    }
  }

  /** The edits of a valid page are exactly the filed records, no id twice. */
  lemma {:induction false} EditsById(ed: SchedulesEditor)
    requires ed.Valid()
    ensures DistinctBy(ed.Edits(), ScheduleId)
    ensures forall s :: s in ed.Edits() <==> Entry(s.id, s) in ed.edited
  {
    ObjectValuesBy(ed.edited, ScheduleId);
  }

  /** No edits, no changes: after a save with nothing to send, or a discard, day switching is enabled again. */
  lemma {:induction false} NoEditsNoChanges(ed: SchedulesEditor)
    requires ed.Valid() && ed.edited == []
    ensures !ed.HasChanges()
  {
    assert ObjectEntries(ed.edited) == [];
  }
}
