/**
 * The public teacher page: the teachers grouped by name, each name with the
 * codes it teaches under, and the name and day selected when the page opens.
 */
module TeacherRoute {
  import opened Base
  import opened Records
  import opened Sorting
  import opened DaySplit

  /** One property of `teacherMap`: a name and its codes. */
  datatype NameCodes = NameCodes(name: string, codes: seq<string>)

  /** The names of the map, in the order they were added. */
  function Keys(m: seq<NameCodes>): (r: seq<string>)
    ensures |r| == |m| && forall i :: 0 <= i < |m| ==> r[i] == m[i].name
  {
    seq(|m|, i requires 0 <= i < |m| => m[i].name)
  }

  /** `teacherMap[name] || []`: the codes under a name, none for a name not in the map. */
  function CodesOf(m: seq<NameCodes>, name: string): (r: seq<string>)
    ensures name !in Keys(m) ==> r == []
    ensures name in Keys(m) ==> r == m[IndexOf(Keys(m), name)].codes
  {
    var i := IndexOf(Keys(m), name);
    if i == -1 then [] else m[i].codes
  }

  /** One step of the `forEach`: the first teacher of a name opens its entry, each teacher appends its code. */
  function AddTeacher(m: seq<NameCodes>, t: Teacher): (r: seq<NameCodes>)
  {
    var i := IndexOf(Keys(m), t.name);
    if i == -1 then m + [NameCodes(t.name, [t.code])]
    else m[i := NameCodes(t.name, m[i].codes + [t.code])]
  }

  /** The map after the `forEach` over the teachers in order. */
  function TeacherMapOf(teachers: seq<Teacher>): seq<NameCodes>
  {
    if teachers == [] then []
    else AddTeacher(TeacherMapOf(teachers[..|teachers| - 1]), teachers[|teachers| - 1])
  }

  /** `teacherMap`, built as the page builds it; no data gives the empty map. */
  method BuildTeacherMap(data: Option<seq<Teacher>>) returns (m: seq<NameCodes>)
    ensures m == TeacherMapOf(data.GetOr([]))
  {
    m := [];
    if data.Some? {
      var teachers := data.value;
      for k := 0 to |teachers|
        invariant m == TeacherMapOf(teachers[..k])
      {
        assert teachers[..k + 1][..k] == teachers[..k];
        m := AddTeacher(m, teachers[k]);
      }
      assert teachers[..|teachers|] == teachers;
    }
  }

  /** The codes of the teachers with a given name, in order. */
  function CodesNamed(teachers: seq<Teacher>, name: string): seq<string>
  {
    if teachers == [] then []
    else
      var last := teachers[|teachers| - 1];
      CodesNamed(teachers[..|teachers| - 1], name) + (if last.name == name then [last.code] else [])
  }

  /**
   * The map's names are the teachers' names without repeats in first-seen
   * order (what `Object.keys` lists), and under each name are exactly the
   * codes of the teachers with that name, in order.
   */
  lemma {:induction false} TeacherMapOfMeans(teachers: seq<Teacher>, name: string)
    ensures Keys(TeacherMapOf(teachers)) == Dedupe(NamesOf(teachers))
    ensures CodesOf(TeacherMapOf(teachers), name) == CodesNamed(teachers, name)
  {
    if teachers != [] {
      var init, last := teachers[..|teachers| - 1], teachers[|teachers| - 1];
      TeacherMapOfMeans(init, name);
      TeacherMapOfMeans(init, last.name);
      var m := TeacherMapOf(init);
      assert NamesOf(teachers) == NamesOf(init) + [last.name];
      DedupeSnoc(NamesOf(init), last.name);
      AddTeacherMeans(m, last, name);
    }
  }

  /** One step: the name is appended when new, and only its own codes grow. */
  lemma {:induction false} AddTeacherMeans(m: seq<NameCodes>, t: Teacher, name: string)
    requires Distinct(Keys(m))
    ensures Keys(AddTeacher(m, t)) == if t.name in Keys(m) then Keys(m) else Keys(m) + [t.name]
    ensures CodesOf(AddTeacher(m, t), name) == CodesOf(m, name) + (if t.name == name then [t.code] else [])
  {
    var r := AddTeacher(m, t);
    var i := IndexOf(Keys(m), t.name);
    if i == -1 {
      assert Keys(r) == Keys(m) + [t.name];
      if name == t.name {
        assert IndexOf(Keys(r), name) == |m|;
      } else if name in Keys(m) {
        assert IndexOf(Keys(r), name) == IndexOf(Keys(m), name);
      }
    } else {
      assert Keys(r) == Keys(m);
      if name in Keys(m) {
        assert IndexOf(Keys(r), name) == IndexOf(Keys(m), name);
      }
    }
  }

  /**
   * `teachers[0] || ''`: the selection the page starts with is the first
   * teacher's name, or empty when there are no teachers.
   */
  function DefaultTeacher(m: seq<NameCodes>): (r: string)
  {
    if |m| > 0 && m[0].name != "" then m[0].name else ""
  }

  lemma {:induction false} DefaultTeacherIsFirst(teachers: seq<Teacher>)
    ensures DefaultTeacher(TeacherMapOf(teachers)) == if teachers == [] then "" else teachers[0].name
  {
    TeacherMapOfMeans(teachers, "");
    if teachers != [] {
      DedupeFirst(NamesOf(teachers));
    }
  }

  /** `days[0]`: the page opens on Monday. */
  const DefaultDay: string := Days[0]
}
