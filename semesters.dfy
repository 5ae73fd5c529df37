/**
 * What the two semester editors (frontend/src/components/SemesterForm.jsx and
 * frontend/src/pages/AdminSemesterPage.jsx) share: the six form fields, the
 * draft both keep under the storage key `semesterFormData`, the date part of
 * a stored deadline, and the completeness test a save needs.
 */
module Semesters {
  import opened Wrappers
  import Text

  /** A selected course: the form component selects ids, the admin page titles. */
  datatype CourseRef = CourseId(id: int) | CourseTitle(title: string)

  /** The six fields an editor holds, and the record it saves (`semester`, `semester_year`, `program`, `courses`, `deadline`, `is_active`). */
  datatype Semester = Semester(term: string, year: int, programs: seq<string>, courses: seq<CourseRef>,
                               deadline: string, isActive: bool)

  /** A semester row read back from the database. */
  datatype Row = Row(term: string, year: int, programs: seq<string>, courses: seq<CourseRef>,
                     deadline: Option<string>, isActive: bool)

  /** A course offered for selection. */
  datatype Course = Course(id: int, title: string)

  /** A value in the stored draft, as `JSON.parse` gives it back. */
  datatype DraftField = Text(s: string) | Number(n: int) | Texts(ts: seq<string>) | Refs(rs: seq<CourseRef>) | Flag(b: bool)

  /** The parsed draft: key to value; `{}` when nothing is stored. */
  type Draft = map<string, DraftField>

  const DefaultTerm := "Fall"
  const YearKey := "year"
  const ProgramsKey := "selectedPrograms"
  const CoursesKey := "selectedCourses"
  const DeadlineKey := "deadline"
  const ActiveKey := "isActive"

  /** The draft the persisting effect writes; `termKey` is `season` in the form component and `semester` in the page. */
  function DraftOf(s: Semester, termKey: string): Draft {
    map[termKey := Text(s.term), YearKey := Number(s.year), ProgramsKey := Texts(s.programs),
        CoursesKey := Refs(s.courses), DeadlineKey := Text(s.deadline), ActiveKey := Flag(s.isActive)]
  }

  /**
   * The lazy initial state: `draft[termKey] || 'Fall'`, `draft.year ||
   * currentYear`, `|| []` for the two lists, `|| ''` for the deadline and
   * `?? false` for the flag. A field of another type than the editor
   * writes reads as absent.
   */
  function Restore(d: Draft, termKey: string, currentYear: int): (s: Semester)
    ensures (termKey in d && d[termKey].Text? && d[termKey].s != "") ==> s.term == d[termKey].s
    ensures !(termKey in d && d[termKey].Text? && d[termKey].s != "") ==> s.term == DefaultTerm
    ensures (YearKey in d && d[YearKey].Number? && d[YearKey].n != 0) ==> s.year == d[YearKey].n
    ensures !(YearKey in d && d[YearKey].Number? && d[YearKey].n != 0) ==> s.year == currentYear
    ensures s.programs == (if ProgramsKey in d && d[ProgramsKey].Texts? then d[ProgramsKey].ts else [])
    ensures s.courses == (if CoursesKey in d && d[CoursesKey].Refs? then d[CoursesKey].rs else [])
    ensures s.deadline == (if DeadlineKey in d && d[DeadlineKey].Text? then d[DeadlineKey].s else "")
    ensures s.isActive == (ActiveKey in d && d[ActiveKey].Flag? && d[ActiveKey].b)
  {
    Semester(
      if termKey in d && d[termKey].Text? && d[termKey].s != "" then d[termKey].s else DefaultTerm,
      if YearKey in d && d[YearKey].Number? && d[YearKey].n != 0 then d[YearKey].n else currentYear,
      if ProgramsKey in d && d[ProgramsKey].Texts? then d[ProgramsKey].ts else [],
      if CoursesKey in d && d[CoursesKey].Refs? then d[CoursesKey].rs else [],
      if DeadlineKey in d && d[DeadlineKey].Text? then d[DeadlineKey].s else "",
      ActiveKey in d && d[ActiveKey].Flag? && d[ActiveKey].b)
  }

  /** A draft read back by the editor that wrote it restores the form exactly, when its term and year are truthy. */
  lemma RestoreDraft(s: Semester, termKey: string, currentYear: int)
    requires s.term != "" && s.year != 0
    requires termKey !in {YearKey, ProgramsKey, CoursesKey, DeadlineKey, ActiveKey}
    ensures Restore(DraftOf(s, termKey), termKey, currentYear) == s
  {
    var d := DraftOf(s, termKey);
    assert d[termKey] == Text(s.term) && d[YearKey] == Number(s.year) && d[ProgramsKey] == Texts(s.programs);
    assert d[CoursesKey] == Refs(s.courses) && d[DeadlineKey] == Text(s.deadline) && d[ActiveKey] == Flag(s.isActive);
  }

  /**
   * The two editors share the storage key but not the term's name: the page
   * reading a draft the form component wrote falls back to 'Fall', whatever
   * term was saved.
   */
  lemma DraftTermNotShared(s: Semester, currentYear: int)
    ensures Restore(DraftOf(s, "season"), "semester", currentYear).term == DefaultTerm
  {
  }

  /** `deadline?.split('T')[0] || ''`: the text before the first 'T', "" when the deadline is null. */
  function DateOnly(deadline: Option<string>): (r: string)
    ensures deadline.None? ==> r == ""
    ensures deadline.Some? ==> Text.StartsWith(deadline.value, r) && 'T' !in r
    ensures deadline.Some? && 'T' in deadline.value ==> deadline.value[|r|] == 'T'
    ensures deadline.Some? && 'T' !in deadline.value ==> r == deadline.value
  {
    if deadline.None? then "" else BeforeT(deadline.value)
  }

  /** The text before the first 'T'. */
  function BeforeT(s: string): (r: string)
    ensures |r| <= |s| && s[..|r|] == r && 'T' !in r
    ensures |r| < |s| ==> s[|r|] == 'T'
  {
    if s == [] || s[0] == 'T' then [] else [s[0]] + BeforeT(s[1..])
  }

  /** A stored date-time is cut to its date: a date without 'T', a 'T' and any time give the date back. */
  lemma {:induction false} DateOnlyOfDateTime(date: string, time: string)
    requires 'T' !in date
    ensures DateOnly(Some(date + "T" + time)) == date
  {
    if date != [] {
      DateOnlyOfDateTime(date[1..], time);
      assert (date + "T" + time)[1..] == date[1..] + "T" + time;
    }
  }

  /** The save guard: term, year, a program, a course and a deadline are all given. */
  predicate Ready(s: Semester) {
    s.term != "" && s.year != 0 && |s.programs| > 0 && |s.courses| > 0 && s.deadline != ""
  }

  /** The programs effect: with no program selected the course selection is cleared; nothing else changes. */
  function Settle(s: Semester): (r: Semester)
    ensures |r.programs| == 0 ==> r.courses == []
    ensures |s.programs| > 0 ==> r == s
    ensures r.(courses := s.courses) == s
  {
    if |s.programs| == 0 then s.(courses := []) else s
  }

  /** What a loaded row puts into the form. */
  function FromRow(r: Row): (s: Semester)
    ensures s.term == r.term && s.year == r.year && s.programs == r.programs && s.courses == r.courses
    ensures s.deadline == DateOnly(r.deadline) && s.isActive == r.isActive
  {
    Semester(r.term, r.year, r.programs, r.courses, DateOnly(r.deadline), r.isActive)
  }
}
