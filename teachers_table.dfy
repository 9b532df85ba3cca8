/**
 * The admin teachers table: new rows listed first, the message shown under
 * each code, and which rows may be edited.
 */
module TeachersTable {
  import opened Base
  import opened Text
  import opened Records
  import opened Utils
  import opened AdminTeachers

  predicate IsExisting(t: Teacher)
  {
    !IsNew(t)
  }

  /**
   * `sortedTeachers`: a stable sort of a copy by a comparator that puts new
   * rows (id at most zero) before existing ones and otherwise keeps the order.
   */
  function NewFirst(teachers: seq<Teacher>): (r: seq<Teacher>)
    ensures |r| == |teachers|
  {
    FilterComplement(teachers, IsNew, IsExisting);
    assert |multiset(teachers)| == |teachers|;
    Filter(teachers, IsNew) + Filter(teachers, IsExisting)
  }

  /**
   * The order the comparator asks for: the rows are those of the input, each
   * as often; no existing row comes before a new one; and the new rows, and
   * the existing rows, each keep their input order.
   */
  lemma {:induction false} NewFirstSorted(teachers: seq<Teacher>)
    ensures multiset(NewFirst(teachers)) == multiset(teachers)
    ensures forall i, j :: 0 <= i < j < |NewFirst(teachers)| && IsNew(NewFirst(teachers)[j]) ==> IsNew(NewFirst(teachers)[i])
    ensures Filter(NewFirst(teachers), IsNew) == Filter(teachers, IsNew)
    ensures Filter(NewFirst(teachers), IsExisting) == Filter(teachers, IsExisting)
  {
    var news, olds := Filter(teachers, IsNew), Filter(teachers, IsExisting);
    var r := NewFirst(teachers);
    FilterComplement(teachers, IsNew, IsExisting);
    forall i, j | 0 <= i < j < |r| && IsNew(r[j])
      ensures IsNew(r[i])
    {
      assert r[i] == news[i] && r[i] in news;
    }
    FilterAppend(news, olds, IsNew);
    FilterAppend(news, olds, IsExisting);
    FilterTwice(teachers, IsNew, IsExisting);
    FilterTwice(teachers, IsExisting, IsNew);
  }

  const CodeReserved: string := "This code is reserved"

  /**
   * `codeError`: a new row holding a reserved code is told so; otherwise a row
   * gets `validateCode`'s message against the whole list, or "".
   */
  function CodeError(t: Teacher, teachers: seq<Teacher>): (e: string)
  {
    if IsNew(t) && CheckIfReservedCode(Some(t.code)) then CodeReserved
    else ValidateCode(t.code, teachers).GetOr("")
  }

  /**
   * The message is empty exactly when the code passes `validateCode` and, for a
   * new row, is not reserved; a reserved new code is reported before any other
   * problem.
   */
  lemma {:induction false} CodeErrorMeans(t: Teacher, teachers: seq<Teacher>)
    ensures CodeError(t, teachers) == "" <==> ValidateCode(t.code, teachers) == None && (IsNew(t) ==> !CheckIfReservedCode(Some(t.code)))
    ensures IsNew(t) && CheckIfReservedCode(Some(t.code)) ==> CodeError(t, teachers) == CodeReserved
  {
    ValidateCodeMessages(t.code, teachers);
  }

  /** A row's message is empty or one of the four fixed messages. */
  lemma {:induction false} CodeErrorMessages(t: Teacher, teachers: seq<Teacher>)
    ensures CodeError(t, teachers) in {"", CodeReserved, CodeRequired, CodeFormat, CodeNotUnique}
  {
    ValidateCodeMessages(t.code, teachers);
  }

  /** The messages of `validateCode` are the three constants, none of them empty. */
  lemma {:induction false} ValidateCodeMessages(code: string, teachers: seq<Teacher>)
    ensures ValidateCode(code, teachers).Some? ==> ValidateCode(code, teachers).value in {CodeRequired, CodeFormat, CodeNotUnique}
    ensures ValidateCode(code, teachers) != Some("")
  {
  }

  /**
   * The page's `allValid` holds exactly when the list is non-empty and every
   * row has a name, a subject and no message under its code.
   */
  lemma {:induction false} AllValidIffNoErrors(teachers: seq<Teacher>)
    ensures AllValid(teachers) <==>
      |teachers| > 0 &&
      forall t :: t in teachers ==> Trim(t.name) != "" && Trim(t.subject) != "" && CodeError(t, teachers) == ""
  {
    forall t | t in teachers {
      CodeErrorMeans(t, teachers);
    }
  }

  /** The code, name, subject and Remove controls of a row are disabled while saving, and for an existing row with a reserved code. */
  predicate Disabled(t: Teacher, isPending: bool)
  {
    isPending || (IsExisting(t) && CheckIfReservedCode(Some(t.code)))
  }

  /**
   * Outside a save, new rows are always editable, and among existing rows
   * whose code is a teacher code only the one holding "Z0" is locked.
   */
  lemma {:induction false} DisabledMeans(t: Teacher)
    ensures IsNew(t) ==> !Disabled(t, false)
    ensures CheckIfTeacherCode(t.code) ==> (Disabled(t, false) <==> IsExisting(t) && t.code == "Z0")
  {
    TeacherAndReserved(t.code);
  }
}
