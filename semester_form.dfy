/**
 * The semester form component (frontend/src/components/SemesterForm.jsx):
 * the six fields restored from and mirrored to the stored draft, the course
 * list that follows the selected programs, the season change that loads the
 * latest record of that season, the active toggle and the save. Database
 * calls are outcomes passed in; effects run to completion inside the
 * handler that triggers them.
 */
module SemesterFormComponent {
  import opened Wrappers
  import opened Semesters

  const TermKey := "season"

  /** The season effect after mount: the latest record of the season, when there is one, fills every field but the season. */
  function ApplyLatest(s: Semester, latest: Option<Row>): (r: Semester)
    ensures r.term == s.term
    ensures latest.None? ==> r == s
    ensures latest.Some? ==> r == FromRow(latest.value).(term := s.term)
  {
    if latest.None? then s else FromRow(latest.value).(term := s.term)
  }

  /**
   * Loading a semester by id as the effects are written: the record fills
   * the form, and when its season differs from the one shown the season
   * effect then fills the form again from the latest record of that season.
   */
  function LoadAsWritten(current: Semester, row: Row, latest: Option<Row>): Semester {
    var loaded := FromRow(row);
    if row.term != current.term then ApplyLatest(loaded, latest) else loaded
  }

  /** As written, the semester being edited is replaced by another record of its season whenever the season changes on load. */
  lemma LoadByIdCanShowAnotherSemester(current: Semester, row: Row, other: Row)
    requires row.term != current.term && other.year != row.year
    ensures LoadAsWritten(current, row, Some(other)).year == other.year
    ensures LoadAsWritten(current, row, Some(other)) != FromRow(row)
  {
  }

  /** Loading a semester by id as intended: the form shows exactly that record, whatever season was shown before. */
  function LoadIntended(current: Semester, row: Row): (s: Semester)
    ensures s.term == row.term && s.year == row.year && s.programs == row.programs && s.courses == row.courses
    ensures s.deadline == DateOnly(row.deadline) && s.isActive == row.isActive
    ensures row.term == current.term ==> forall latest :: s == LoadAsWritten(current, row, latest)
  {
    FromRow(row)
  }

  /** Some offered course has this id. */
  predicate Offered(available: seq<Course>, id: int) {
    exists c :: c in available && c.id == id
  }

  /** `availableCourses.find(c => c.id === id)`: the first offered course with that id, if any. */
  function FindById(available: seq<Course>, id: int): (r: Option<Course>)
    ensures r.None? <==> !Offered(available, id)
    ensures r.Some? ==> exists k :: 0 <= k < |available| && available[k] == r.value && r.value.id == id
                                   && forall j :: 0 <= j < k ==> available[j].id != id
  {
    if available == [] then None
    else if available[0].id == id then Some(available[0])
    else
      var r := FindById(available[1..], id);
      assert forall c :: c in available[1..] ==> c in available;
      assert forall c :: c in available && c != available[0] ==> c in available[1..];
      if r.Some? then
        var k :| 0 <= k < |available[1..]| && available[1..][k] == r.value && r.value.id == id
                 && forall j :: 0 <= j < k ==> available[1..][j].id != id;
        assert available[k + 1] == r.value;
        r
      else r
  }

  /** The selected course ids the course select shows: each mapped to its course, ids with no offered course dropped. */
  function SelectedOptions(courses: seq<CourseRef>, available: seq<Course>): (r: seq<Course>)
    ensures |r| <= |courses|
    ensures forall c :: c in r ==> c in available
    ensures forall i :: 0 <= i < |courses| && courses[i].CourseId? && Offered(available, courses[i].id) ==>
      exists c :: c in r && c.id == courses[i].id
    ensures forall c :: c in r ==> CourseId(c.id) in courses
  {
    if courses == [] then []
    else
      var rest := SelectedOptions(courses[1..], available);
      var head := if courses[0].CourseId? then FindById(available, courses[0].id) else None;
      assert forall i :: 1 <= i < |courses| ==> courses[i] == courses[1..][i - 1];
      assert forall x :: x in courses[1..] ==> x in courses;
      if head.Some? then [head.value] + rest else rest
  }

  /** The shown options keep the selection's order: the display of two selections one after the other is the two displays one after the other. */
  lemma {:induction false} SelectedOptionsAppend(a: seq<CourseRef>, b: seq<CourseRef>, available: seq<Course>)
    ensures SelectedOptions(a + b, available) == SelectedOptions(a, available) + SelectedOptions(b, available)
  {
    if a == [] {
      assert a + b == b;
    } else {
      assert (a + b)[0] == a[0];
      assert (a + b)[1..] == a[1..] + b;
      SelectedOptionsAppend(a[1..], b, available);
    }
  }

  /** One selection shows the first offered course with its id, or nothing when no course has that id or it is a title. */
  lemma SelectedOptionsSingle(ref: CourseRef, available: seq<Course>)
    ensures ref.CourseTitle? ==> SelectedOptions([ref], available) == []
    ensures ref.CourseId? && !Offered(available, ref.id) ==> SelectedOptions([ref], available) == []
    ensures ref.CourseId? && Offered(available, ref.id) ==>
      exists k :: 0 <= k < |available| && available[k].id == ref.id
        && (forall j :: 0 <= j < k ==> available[j].id != ref.id)
        && SelectedOptions([ref], available) == [available[k]]
  {
    assert [ref][1..] == [];
    assert SelectedOptions([], available) == [];
    if ref.CourseId? {
      var r := FindById(available, ref.id);
      if r.Some? {
        var k :| 0 <= k < |available| && available[k] == r.value && r.value.id == ref.id
                 && forall j :: 0 <= j < k ==> available[j].id != ref.id;
        assert SelectedOptions([ref], available) == [available[k]];
      }
    }
  }

  /** Nothing is dropped from the display when every selection is an offered course id. */
  lemma {:induction false} AllOfferedAllShown(courses: seq<CourseRef>, available: seq<Course>)
    requires forall i :: 0 <= i < |courses| ==> courses[i].CourseId? && Offered(available, courses[i].id)
    ensures |SelectedOptions(courses, available)| == |courses|
  {
    if courses != [] {
      AllOfferedAllShown(courses[1..], available);
    }
  }

  class Form {
    var form: Semester
    var availableCourses: seq<Course>
    /** The stored draft; `None` once a save has removed it. */
    var draft: Option<Draft>

    /** The draft mirrors the form until a save removes it, and no course stays selected or offered without a program. */
    predicate Valid()
      reads this
    {
      && (draft.None? || draft == Some(DraftOf(form, TermKey)))
      && (|form.programs| == 0 ==> form.courses == [] && availableCourses == [])
    }

    /**
     * Mounting: the fields from the stored draft (`{}` when none), the
     * programs effect, and the draft written back. The season effect's first
     * run is skipped, so no record is loaded.
     */
    constructor (stored: Draft, currentYear: int, fetched: Option<seq<Course>>)
      ensures Valid()
      ensures form == Settle(Restore(stored, TermKey, currentYear))
      ensures availableCourses == (if |form.programs| > 0 then fetched.GetOr([]) else [])
      ensures draft == Some(DraftOf(form, TermKey))
    {
      var restored := Settle(Restore(stored, TermKey, currentYear));
      form := restored;
      availableCourses := if |restored.programs| > 0 then fetched.GetOr([]) else [];
      draft := Some(DraftOf(restored, TermKey));
    }

    /** The programs effect and the draft effect after the fields have become `next`. */
    method Commit(next: Semester, fetched: Option<seq<Course>>)
      modifies this
      ensures form == Settle(next) && draft == Some(DraftOf(form, TermKey))
      ensures |next.programs| == 0 ==> availableCourses == []
      ensures |next.programs| > 0 ==> availableCourses == fetched.GetOr(old(availableCourses))
      ensures Valid()
    {
      form := Settle(next);
      availableCourses := if |next.programs| == 0 then [] else fetched.GetOr(availableCourses);
      draft := Some(DraftOf(form, TermKey));
    }

    /**
     * The season select: choosing the season already shown changes nothing;
     * another season is set and the latest record of it, if any, fills the
     * other fields.
     */
    method SetSeason(season: string, latest: Option<Row>, fetched: Option<seq<Course>>)
      requires Valid()
      modifies this
      ensures Valid()
      ensures season == old(form.term) ==> form == old(form) && draft == old(draft) && availableCourses == old(availableCourses)
      ensures season != old(form.term) ==> form == Settle(ApplyLatest(old(form).(term := season), latest))
      ensures season != old(form.term) ==> form.term == season && draft == Some(DraftOf(form, TermKey))
    {
      if season == form.term {
        return;
      }
      Commit(ApplyLatest(form.(term := season), latest), if latest.Some? then fetched else None);
    }

    /** The record named by `semesterId`, once fetched, fills the form (as intended; see `LoadAsWritten`). */
    method LoadSemester(row: Row, fetched: Option<seq<Course>>)
      modifies this
      ensures form == Settle(LoadIntended(old(form), row))
      ensures Valid()
    {
      Commit(LoadIntended(form, row), fetched);
    }

    /** The year input. */
    method SetYear(year: int)
      requires Valid()
      modifies this
      ensures form == old(form).(year := year) && availableCourses == old(availableCourses)
      ensures draft == Some(DraftOf(form, TermKey)) && Valid()
    {
      Commit(form.(year := year), None);
    }

    /** The deadline input. */
    method SetDeadline(deadline: string)
      requires Valid()
      modifies this
      ensures form == old(form).(deadline := deadline) && availableCourses == old(availableCourses)
      ensures draft == Some(DraftOf(form, TermKey)) && Valid()
    {
      Commit(form.(deadline := deadline), None);
    }

    /** The program select; an empty selection clears the offered and the selected courses. */
    method SetPrograms(programs: seq<string>, fetched: Option<seq<Course>>)
      modifies this
      ensures form == Settle(old(form).(programs := programs))
      ensures programs == [] ==> form.courses == [] && availableCourses == []
      ensures programs != [] ==> form.courses == old(form.courses) && availableCourses == fetched.GetOr(old(availableCourses))
      ensures Valid()
    {
      Commit(form.(programs := programs), fetched);
    }

    /** The course select, whose options are the offered courses. */
    method SetCourses(picked: seq<int>)
      requires Valid()
      requires forall i :: 0 <= i < |picked| ==> Offered(availableCourses, picked[i])
      modifies this
      ensures |form.courses| == |picked| && forall i :: 0 <= i < |picked| ==> form.courses[i] == CourseId(picked[i])
      ensures form == old(form).(courses := form.courses) && availableCourses == old(availableCourses)
      ensures draft == Some(DraftOf(form, TermKey)) && Valid()
    {
      var refs := seq(|picked|, i requires 0 <= i < |picked| => CourseId(picked[i]));
      assert |picked| > 0 ==> Offered(availableCourses, picked[0]) && |availableCourses| > 0;
      Commit(form.(courses := refs), None);
    }

    /**
     * `handleToggleActive`: the record is sent with the flag inverted; the
     * flag flips only once that save succeeds.
     */
    method HandleToggleActive(saveSucceeds: bool) returns (sent: Semester)
      requires Valid()
      modifies this
      ensures sent == old(form).(isActive := !old(form.isActive))
      ensures saveSucceeds ==> form == sent && draft == Some(DraftOf(form, TermKey))
      ensures !saveSucceeds ==> form == old(form) && draft == old(draft)
      ensures availableCourses == old(availableCourses) && Valid()
    {
      sent := form.(isActive := !form.isActive);
      if saveSucceeds {
        Commit(sent, None);
      }
    }

    /**
     * `handleSave`: nothing is sent unless the form is complete; a complete
     * form is sent as it is, and the draft is removed only when the save
     * succeeds.
     */
    method HandleSave(saveSucceeds: bool) returns (sent: Option<Semester>)
      requires Valid()
      modifies this
      ensures sent.Some? <==> Ready(old(form))
      ensures sent.Some? ==> sent.value == old(form)
      ensures draft == if sent.Some? && saveSucceeds then None else old(draft)
      ensures form == old(form) && availableCourses == old(availableCourses) && Valid()
    {
      if !Ready(form) {
        return None;
      }
      sent := Some(form);
      if saveSucceeds {
        draft := None;
      }
    }
  }
}
