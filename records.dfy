/** The database records the admin pages and the API work on. */
module Records {
  import opened Base

  /** One cell of the weekly grid: the teacher code a class has on a day (0 = Monday) at a time slot. */
  datatype Schedule = Schedule(id: int, day: int, timeSlot: string, className: string, teacherCode: Option<string>)

  /** A teacher; ids of teachers added in the editor and not saved yet are negative. */
  datatype Teacher = Teacher(id: int, code: string, name: string, subject: string)

  /** The teachers' names, in order (`teachers.map((t) => t.name)`). */
  function NamesOf(teachers: seq<Teacher>): (r: seq<string>)
    ensures |r| == |teachers| && forall i :: 0 <= i < |r| ==> r[i] == teachers[i].name
  {
    seq(|teachers|, i requires 0 <= i < |teachers| => teachers[i].name)
  }

  /** `String(v)` of a string or `null`, as a regular expression test sees its argument. */
  function Coerce(v: Option<string>): string
  {
    match v
    case Some(s) => s
    case None => "null"
  }

  /** A teacher to insert: the record without its id (`Omit<Teacher, "id">`). */
  datatype NewTeacher = NewTeacher(code: string, name: string, subject: string)

  /** The body the teachers editor posts in one save. */
  datatype BatchBody = BatchBody(added: seq<NewTeacher>, edited: seq<Teacher>, removed: seq<int>)
}
