/**
 * The admin teachers page: the loaded teachers, the edits (an object keyed by
 * teacher id, where rows added in the page carry negative ids), the set of
 * ids marked for removal, and the change sets a save posts.
 */
module AdminTeachers {
  import opened Base
  import opened Text
  import opened Records
  import opened JsCollections
  import opened Utils

  function TeacherId(t: Teacher): int
  {
    t.id
  }

  /** `teachers`: the loaded teachers with the edits laid over them by id, less the removed ids. */
  function ShownOf(base: seq<Teacher>, edits: seq<Teacher>, removed: set<int>): (r: seq<Teacher>)
    ensures forall t :: t in r ==> t.id !in removed
  {
    Filter(Overlaid(base, edits, TeacherId), (t: Teacher) => t.id !in removed)
  }

  /**
   * What the page lists: only loaded or edited teachers, none removed; every
   * edit that is not removed, and every loaded teacher neither edited nor
   * removed.
   */
  lemma {:induction false} ShownShape(base: seq<Teacher>, edits: seq<Teacher>, removed: set<int>)
    requires DistinctBy(base, TeacherId) && DistinctBy(edits, TeacherId)
    ensures forall t :: t in ShownOf(base, edits, removed) ==> t in base || t in edits
    ensures forall t :: t in edits && t.id !in removed ==> t in ShownOf(base, edits, removed)
    ensures forall t :: t in base && t.id !in removed && t.id !in KeysBy(edits, TeacherId) ==> t in ShownOf(base, edits, removed)
  {
    OverlaidFrom(base, edits, TeacherId);
    OverlaidHasEdits(base, edits, TeacherId);
    OverlaidHasBase(base, edits, TeacherId);
  }

  /** `Math.min(0, ...ids)`. */
  function MinId(ids: seq<int>): (r: int)
    ensures r <= 0 && forall i :: 0 <= i < |ids| ==> r <= ids[i]
    ensures r == 0 || r in ids
  {
    if ids == [] then 0
    else
      var rest := MinId(ids[1..]);
      assert forall i :: 1 <= i < |ids| ==> ids[1..][i - 1] == ids[i];
      if ids[0] < rest then ids[0] else rest
  }

  /** The id `handleAdd` gives a new row: one below the smallest listed id and below zero. */
  function NewTeacherId(shown: seq<Teacher>): (r: int)
    ensures r < 0 && forall t :: t in shown ==> r < t.id
  {
    var ids := KeysBy(shown, TeacherId);
    assert forall t :: t in shown ==> t.id in ids;
    MinId(ids) - 1
  }

  /** The new id is not the id of any listed row. */
  lemma {:induction false} NewIdUnlisted(shown: seq<Teacher>)
    ensures NewTeacherId(shown) !in KeysBy(shown, TeacherId)
  {
  }

  /** The loaded teacher with `id`, as `find` returns it. */
  function FindById(base: seq<Teacher>, id: int): (r: Option<Teacher>)
    ensures r.Some? ==> r.value in base && r.value.id == id
    ensures r.None? <==> forall t :: t in base ==> t.id != id
    ensures r.Some? ==> exists i :: 0 <= i < |base| && base[i] == r.value && forall j :: 0 <= j < i ==> base[j].id != id
  {
    if base == [] then None
    else if base[0].id == id then Some(base[0])
    else
      assert forall t :: t in base ==> t == base[0] || t in base[1..];
      FindById(base[1..], id)
  }

  predicate IsNew(t: Teacher)
  {
    t.id <= 0
  }

  /** An edit of a loaded teacher that differs from it in code, name or subject. */
  predicate IsEdit(t: Teacher, base: seq<Teacher>)
  {
    t.id > 0 && FindById(base, t.id).Some? &&
    var orig := FindById(base, t.id).value;
    t.code != orig.code || t.name != orig.name || t.subject != orig.subject
  }

  datatype ChangeSet = ChangeSet(added: seq<Teacher>, edited: seq<Teacher>, removed: seq<Teacher>)

  /** `getChangedTeachers`. */
  function ChangesOf(edits: seq<Teacher>, base: seq<Teacher>, removed: set<int>): (c: ChangeSet)
    ensures forall t :: t in c.added <==> t in edits && t.id < 0
    ensures forall t :: t in c.edited <==> t in edits && IsEdit(t, base)
    ensures forall t :: t in c.removed <==> t in base && t.id in removed
    ensures forall t :: !(t in c.added && t in c.edited)
  {
    ChangeSet(Filter(edits, (t: Teacher) => t.id < 0), Filter(edits, (t: Teacher) => IsEdit(t, base)), Filter(base, (t: Teacher) => t.id in removed))
  }

  /** `hasChanges`. */
  predicate HasChanges(c: ChangeSet)
  {
    |c.added| > 0 || |c.edited| > 0 || |c.removed| > 0
  }

  /** `isTeacherValid`: a name, a subject and a code `validateCode` accepts against the listed teachers. */
  predicate IsTeacherValid(t: Teacher, teachers: seq<Teacher>)
  {
    Trim(t.name) != "" && Trim(t.subject) != "" && ValidateCode(t.code, teachers).None?
  }

  /** `allValid`: a non-empty list, every row valid, and no new row holding a reserved code. */
  predicate AllValid(teachers: seq<Teacher>)
  {
    |teachers| > 0 &&
    (forall t :: t in teachers ==> IsTeacherValid(t, teachers)) &&
    (forall t :: t in teachers && IsNew(t) ==> !CheckIfReservedCode(Some(t.code)))
  }

  /**
   * A list that may be saved has every trimmed code exactly once, each a run of
   * capitals and one or two digits, and no new row's code, untrimmed, starts
   * with X or Z.
   */
  lemma {:induction false} AllValidMeans(teachers: seq<Teacher>, t: Teacher)
    requires AllValid(teachers) && t in teachers
    ensures CodeBag(teachers)[Trim(t.code)] == 1
    ensures LettersDigits(Trim(t.code), 1, 2)
    ensures IsNew(t) ==> !StartsXZ(t.code)
  {
    CodeBagHas(teachers, t);
  }

  /** A teacher with a non-blank trimmed code contributes it to the bag. */
  lemma {:induction false} CodeBagHas(teachers: seq<Teacher>, t: Teacher)
    requires t in teachers && TrimmedCode(t) != ""
    ensures CodeBag(teachers)[TrimmedCode(t)] >= 1
  {
    var n := |teachers| - 1;
    var prefix := teachers[..n];
    var c, k := TrimmedCode(teachers[n]), TrimmedCode(t);
    var added := if c == "" then multiset{} else multiset{c};
    assert CodeBag(teachers) == CodeBag(prefix) + added;
    if teachers[n] != t {
      InPrefix(teachers, t);
      CodeBagHas(prefix, t);
      assert CodeBag(prefix)[k] >= 1;
    } else {
      assert added[k] == 1;
    }
  }

  /** A member other than the last is in the list without its last element. */
  lemma {:induction false} InPrefix<T>(xs: seq<T>, x: T)
    requires x in xs && xs[|xs| - 1] != x
    ensures x in xs[..|xs| - 1]
  {
    var i :| 0 <= i < |xs| && xs[i] == x;
    assert xs[..|xs| - 1][i] == x;
  }

  /** The body of a save: added rows without their ids, edited rows, and the removed ids. */
  function PayloadOf(c: ChangeSet): (b: BatchBody)
    ensures |b.added| == |c.added| && |b.edited| == |c.edited| && |b.removed| == |c.removed|
    ensures forall i :: 0 <= i < |c.added| ==> b.added[i] == NewTeacher(c.added[i].code, c.added[i].name, c.added[i].subject)
    ensures b.edited == c.edited
    ensures forall i :: 0 <= i < |c.removed| ==> b.removed[i] == c.removed[i].id
  {
    BatchBody(
      seq(|c.added|, i requires 0 <= i < |c.added| => NewTeacher(c.added[i].code, c.added[i].name, c.added[i].subject)),
      c.edited,
      seq(|c.removed|, i requires 0 <= i < |c.removed| => c.removed[i].id))
  }

  datatype RecapCounts = RecapCounts(added: nat, edited: nat, removed: nat)

  /** The page's state. `edited` is `editedTeachersMap`, each teacher filed under its own id. */
  class TeachersEditor {
    var data: Option<seq<Teacher>>
    var edited: seq<Entry<Teacher>>
    var removed: set<int>
    var confirmOpen: bool
    var removeDialogOpen: bool
    var removeId: Option<int>
    var recap: RecapCounts

    /** Edits are filed by their own id, and only ids of loaded teachers (never negative) are marked removed. */
    predicate Valid()
      reads this
    {
      KeysDistinct(edited) && (forall e :: e in edited ==> e.key == e.value.id) &&
      forall id :: id in removed ==> id >= 0
    }

    function Base(): seq<Teacher>
      reads this
    {
      if data.Some? then data.value else []
    }

    function Edits(): seq<Teacher>
      reads this
      requires Valid()
    {
      ObjectValues(edited)
    }

    function Shown(): seq<Teacher>
      reads this
      requires Valid()
    {
      ShownOf(Base(), Edits(), removed)
    }

    function Changes(): ChangeSet
      reads this
      requires Valid()
    {
      ChangesOf(Edits(), Base(), removed)
    }

    /** Whether "Save Changes" is enabled. */
    predicate CanSave(isPending: bool)
      reads this
      requires Valid()
    {
      !isPending && AllValid(Shown())
    }

    constructor(data: Option<seq<Teacher>>)
      ensures Valid()
      ensures this.data == data && edited == [] && removed == {}
      ensures !confirmOpen && !removeDialogOpen && removeId == None && recap == RecapCounts(0, 0, 0)
    {
      this.data := data;
      edited := [];
      removed := {};
      confirmOpen := false;
      removeDialogOpen := false;
      removeId := None;
      recap := RecapCounts(0, 0, 0);
    }

    /**
     * `handleAdd`: a blank row whose id is below every listed id. Its id is
     * new to the edits too, so the row is appended to them.
     */
    method HandleAdd()
      requires Valid() && DistinctBy(Base(), TeacherId)
      modifies this
      ensures Valid()
      ensures var t := Teacher(NewTeacherId(old(Shown())), "", "", "");
        edited == old(edited) + [Entry(t.id, t)]
      ensures data == old(data) && removed == old(removed)
      ensures confirmOpen == old(confirmOpen) && removeDialogOpen == old(removeDialogOpen)
      ensures removeId == old(removeId) && recap == old(recap)
    {
      var id := NewTeacherId(Shown());
      AddFiled(edited, Base(), removed);
      edited := Put(edited, id, Teacher(id, "", "", ""));
    }

    /** `handleRemove`: asks to confirm removing `id`. */
    method HandleRemove(id: int)
      modifies this
      ensures removeId == Some(id) && removeDialogOpen
      ensures data == old(data) && edited == old(edited) && removed == old(removed)
      ensures confirmOpen == old(confirmOpen) && recap == old(recap)
    {
      removeId := Some(id);
      removeDialogOpen := true;
    }

    /**
     * `confirmRemove`: nothing without an id; a new row (negative id) is
     * dropped from the edits; any other id is marked removed and dropped from
     * the edits.
     */
    method ConfirmRemove()
      requires Valid()
      modifies this
      ensures Valid()
      ensures old(removeId).None? ==> edited == old(edited) && removed == old(removed) && removeDialogOpen == old(removeDialogOpen)
      ensures old(removeId).Some? ==>
        var id := old(removeId).value;
        edited == Remove(old(edited), id)
        && Find(edited, id) == None
        && (forall k :: k != id ==> Find(edited, k) == Find(old(edited), k))
        && removed == (if id < 0 then old(removed) else old(removed) + {id})
        && !removeDialogOpen
      ensures removeId == None
      ensures data == old(data) && confirmOpen == old(confirmOpen) && recap == old(recap)
    {
      if removeId.None? {
        return;
      }
      var id := removeId.value;
      RemoveFind(edited, id);
      if id >= 0 {
        removed := removed + {id};
      }
      edited := Remove(edited, id);
      removeDialogOpen := false;
      removeId := None;
    }

    /** `handleChange`: files the changed row under its id. */
    method HandleChange(t: Teacher)
      requires Valid()
      modifies this
      ensures Valid()
      ensures edited == Put(old(edited), t.id, t)
      ensures Find(edited, t.id) == Some(t)
      ensures forall k :: k != t.id ==> Find(edited, k) == Find(old(edited), k)
      ensures data == old(data) && removed == old(removed)
      ensures confirmOpen == old(confirmOpen) && removeDialogOpen == old(removeDialogOpen)
      ensures removeId == old(removeId) && recap == old(recap)
    {
      PutFind(edited, t.id, t);
      PutFiled(edited, TeacherId, t);
      edited := Put(edited, t.id, t);
    }

    /** `handleDiscard`. */
    method HandleDiscard()
      modifies this
      ensures Valid()
      ensures edited == [] && removed == {}
      ensures data == old(data) && confirmOpen == old(confirmOpen) && removeDialogOpen == old(removeDialogOpen)
      ensures removeId == old(removeId) && recap == old(recap)
    {
      edited := [];
      removed := {};
    }

    /** `handleSave`: records the sizes of the three change sets and asks for confirmation. */
    method HandleSave()
      requires Valid()
      modifies this
      ensures recap == RecapCounts(|old(Changes()).added|, |old(Changes()).edited|, |old(Changes()).removed|)
      ensures confirmOpen
      ensures data == old(data) && edited == old(edited) && removed == old(removed)
      ensures removeDialogOpen == old(removeDialogOpen) && removeId == old(removeId)
    {
      var c := Changes();
      recap := RecapCounts(|c.added|, |c.edited|, |c.removed|);
      confirmOpen := true;
    }

    /** `confirmSave`: closes the confirmation and posts the changes. */
    method ConfirmSave() returns (body: BatchBody)
      requires Valid()
      modifies this
      ensures body == PayloadOf(old(Changes()))
      ensures !confirmOpen
      ensures data == old(data) && edited == old(edited) && removed == old(removed)
      ensures removeDialogOpen == old(removeDialogOpen) && removeId == old(removeId) && recap == old(recap)
    {
      var c := Changes();
      confirmOpen := false;
      body := PayloadOf(c);
    }

    /** A successful save: the teachers are reloaded and the edits and removals cleared. */
    method SaveSucceeded(reloaded: Option<seq<Teacher>>)
      modifies this
      ensures Valid()
      ensures data == reloaded && edited == [] && removed == {}
      ensures confirmOpen == old(confirmOpen) && removeDialogOpen == old(removeDialogOpen)
      ensures removeId == old(removeId) && recap == old(recap)
    {
      data := reloaded;
      edited := [];
      removed := {};
    }
  }

  /** Every id filed in the edits is either not negative or listed. */
  lemma {:induction false} EditKeysShown(edited: seq<Entry<Teacher>>, base: seq<Teacher>, removed: set<int>)
    requires KeysDistinct(edited) && (forall e :: e in edited ==> e.key == e.value.id)
    requires (forall id :: id in removed ==> id >= 0) && DistinctBy(base, TeacherId)
    ensures forall k :: k in Keys(edited) && k < 0 ==> k in KeysBy(ShownOf(base, ObjectValues(edited), removed), TeacherId)
  {
    ObjectValuesBy(edited, TeacherId);
    ShownShape(base, ObjectValues(edited), removed);
    forall k | k in Keys(edited) && k < 0
      ensures k in KeysBy(ShownOf(base, ObjectValues(edited), removed), TeacherId)
    {
      var i :| 0 <= i < |edited| && Keys(edited)[i] == k;
      assert edited[i] in edited;
      EditShown(edited, ObjectValues(edited), ShownOf(base, ObjectValues(edited), removed), removed, edited[i]);
    }
  }

  lemma {:induction false} EditShown(edited: seq<Entry<Teacher>>, vs: seq<Teacher>, shown: seq<Teacher>, removed: set<int>, e: Entry<Teacher>)
    requires e in edited && e.key == e.value.id && e.key < 0
    requires forall id :: id in removed ==> id >= 0
    requires forall x :: Entry(TeacherId(x), x) in edited ==> x in vs
    requires forall t :: t in vs && t.id !in removed ==> t in shown
    ensures e.key in KeysBy(shown, TeacherId)
  {
    assert Entry(TeacherId(e.value), e.value) == e;
    var j :| 0 <= j < |shown| && shown[j] == e.value;
    assert KeysBy(shown, TeacherId)[j] == e.key;
  }

  /** The blank row of `handleAdd` is new to the edits, so it is appended and stays filed under its id. */
  lemma {:induction false} AddFiled(edited: seq<Entry<Teacher>>, base: seq<Teacher>, removed: set<int>)
    requires KeysDistinct(edited) && (forall e :: e in edited ==> e.key == e.value.id)
    requires (forall id :: id in removed ==> id >= 0) && DistinctBy(base, TeacherId)
    ensures var id := NewTeacherId(ShownOf(base, ObjectValues(edited), removed));
      var p := Put(edited, id, Teacher(id, "", "", ""));
      p == edited + [Entry(id, Teacher(id, "", "", ""))] &&
      KeysDistinct(p) && forall e :: e in p ==> e.key == e.value.id
  {
    var shown := ShownOf(base, ObjectValues(edited), removed);
    var id := NewTeacherId(shown);
    EditKeysShown(edited, base, removed);
    NewIdUnlisted(shown);
    assert id !in Keys(edited);
    DistinctSnoc(edited, Entry(id, Teacher(id, "", "", "")));
  }

  /** With nothing edited or removed there is nothing to save. */
  lemma {:induction false} NothingEditedNoChanges(ed: TeachersEditor)
    requires ed.Valid() && ed.edited == [] && ed.removed == {}
    ensures !HasChanges(ed.Changes())
  {
    var c := ed.Changes();
    assert ObjectEntries(ed.edited) == [];
  }
}
