/**
 * The admin semester page (frontend/src/pages/AdminSemesterPage.jsx): the
 * same six fields as the form component, kept in the same stored draft
 * under the term's name `semester`, with courses chosen by title; a change
 * of term or year offers to load the record saved for that term and year.
 * Database calls and the confirmation dialog are outcomes passed in;
 * effects run to completion inside the handler that triggers them.
 */
module AdminSemesterPage {
  import opened Wrappers
  import opened Semesters

  const TermKey := "semester"

  const FillAllMessage := "Please fill in all fields before saving."
  const SavedMessage := "Semester saved successfully."
  const SaveFailedMessage := "Error saving semester."
  const ActiveMessage := "Semester is now Active."
  const InactiveMessage := "Semester is now Inactive."
  const ToggleFailedMessage := "Failed to update active status."

  /**
   * The existing-record effect: a record for the shown term and year that
   * the user chose to load brings its programs, courses, date and flag; the
   * term and year stay as they are.
   */
  function ApplyExisting(s: Semester, loaded: Option<Row>): (r: Semester)
    ensures r.term == s.term && r.year == s.year
    ensures loaded.None? ==> r == s
    ensures loaded.Some? ==> r.programs == loaded.value.programs && r.courses == loaded.value.courses
    ensures loaded.Some? ==> r.deadline == DateOnly(loaded.value.deadline) && r.isActive == loaded.value.isActive
  {
    if loaded.None? then s else FromRow(loaded.value).(term := s.term, year := s.year)
  }

  class Page {
    var form: Semester
    var availableCourses: seq<Course>
    /** The stored draft; `None` once a save has removed it. */
    var draft: Option<Draft>

    /** The draft mirrors the form until a save removes it, and no course stays selected or offered without a program. */
    predicate Valid()
      reads this
    {
      && (draft.None? || draft == Some(DraftOf(form, TermKey)))
      && (|form.programs| == 0 ==> form.courses == [] && availableCourses == [])
    }

    /**
     * Mounting: the fields from the stored draft (`{}` when none), the
     * programs effect and the draft written back. The existing-record
     * effect's first run is skipped, so nothing is loaded.
     */
    constructor (stored: Draft, currentYear: int, fetched: Option<seq<Course>>)
      ensures Valid()
      ensures form == Settle(Restore(stored, TermKey, currentYear))
      ensures availableCourses == (if |form.programs| > 0 then fetched.GetOr([]) else [])
      ensures draft == Some(DraftOf(form, TermKey))
    {
      var restored := Settle(Restore(stored, TermKey, currentYear));
      form := restored;
      availableCourses := if |restored.programs| > 0 then fetched.GetOr([]) else [];
      draft := Some(DraftOf(restored, TermKey));
    }

    /** The programs effect and the draft effect after the fields have become `next`. */
    method Commit(next: Semester, fetched: Option<seq<Course>>)
      modifies this
      ensures form == Settle(next) && draft == Some(DraftOf(form, TermKey))
      ensures |next.programs| == 0 ==> availableCourses == []
      ensures |next.programs| > 0 ==> availableCourses == fetched.GetOr(old(availableCourses))
      ensures Valid()
    {
      form := Settle(next);
      availableCourses := if |next.programs| == 0 then [] else fetched.GetOr(availableCourses);
      draft := Some(DraftOf(form, TermKey));
    }

    /** The term select: the same term changes nothing; another is set, and the record saved for it and the year may be loaded. */
    method SetSemester(term: string, loaded: Option<Row>, fetched: Option<seq<Course>>)
      requires Valid()
      modifies this
      ensures Valid()
      ensures term == old(form.term) ==> form == old(form) && draft == old(draft) && availableCourses == old(availableCourses)
      ensures term != old(form.term) ==> form == Settle(ApplyExisting(old(form).(term := term), loaded))
      ensures term != old(form.term) ==> draft == Some(DraftOf(form, TermKey))
    {
      if term == form.term {
        return;
      }
      Commit(ApplyExisting(form.(term := term), loaded), if loaded.Some? then fetched else None);
    }

    /** The year input, with the same existing-record check as the term. */
    method SetYear(year: int, loaded: Option<Row>, fetched: Option<seq<Course>>)
      requires Valid()
      modifies this
      ensures Valid()
      ensures year == old(form.year) ==> form == old(form) && draft == old(draft) && availableCourses == old(availableCourses)
      ensures year != old(form.year) ==> form == Settle(ApplyExisting(old(form).(year := year), loaded))
      ensures year != old(form.year) ==> draft == Some(DraftOf(form, TermKey))
    {
      if year == form.year {
        return;
      }
      Commit(ApplyExisting(form.(year := year), loaded), if loaded.Some? then fetched else None);
    }

    /** The deadline input. */
    method SetDeadline(deadline: string)
      requires Valid()
      modifies this
      ensures form == old(form).(deadline := deadline) && availableCourses == old(availableCourses)
      ensures draft == Some(DraftOf(form, TermKey)) && Valid()
    {
      Commit(form.(deadline := deadline), None);
    }

    /** The program select; an empty selection clears the offered and the selected courses. */
    method SetPrograms(programs: seq<string>, fetched: Option<seq<Course>>)
      modifies this
      ensures form == Settle(old(form).(programs := programs))
      ensures programs == [] ==> form.courses == [] && availableCourses == []
      ensures programs != [] ==> form.courses == old(form.courses) && availableCourses == fetched.GetOr(old(availableCourses))
      ensures Valid()
    {
      Commit(form.(programs := programs), fetched);
    }

    /**
     * The course select. Its options are the offered courses' titles, but its
     * value is every selected title, so a title kept from earlier programs
     * comes back too. With no program chosen nothing is offered or selected,
     * so the select can only send an empty list.
     */
    method SetCourses(picked: seq<string>)
      requires Valid()
      requires |form.programs| == 0 ==> picked == []
      modifies this
      ensures |form.courses| == |picked| && forall i :: 0 <= i < |picked| ==> form.courses[i] == CourseTitle(picked[i])
      ensures form == old(form).(courses := form.courses) && availableCourses == old(availableCourses)
      ensures draft == Some(DraftOf(form, TermKey)) && Valid()
    {
      var refs := seq(|picked|, i requires 0 <= i < |picked| => CourseTitle(picked[i]));
      Commit(form.(courses := refs), None);
    }

    /**
     * `handleToggleActive`: the record is sent with `newActive`, the
     * inverted flag, which is set only once the save succeeds.
     */
    method HandleToggleActive(saveSucceeds: bool) returns (sent: Semester, alert: string)
      requires Valid()
      modifies this
      ensures sent == old(form).(isActive := !old(form.isActive))
      ensures saveSucceeds ==> form == sent && draft == Some(DraftOf(form, TermKey))
      ensures saveSucceeds ==> alert == if sent.isActive then ActiveMessage else InactiveMessage
      ensures !saveSucceeds ==> form == old(form) && draft == old(draft) && alert == ToggleFailedMessage
      ensures availableCourses == old(availableCourses) && Valid()
    {
      var newActive := !form.isActive;
      sent := form.(isActive := newActive);
      if saveSucceeds {
        Commit(sent, None);
        alert := if newActive then ActiveMessage else InactiveMessage;
      } else {
        alert := ToggleFailedMessage;
      }
    }

    /**
     * `handleSave`: an incomplete form is refused with an alert and nothing
     * sent; a complete one is sent as it is, and the draft is removed only
     * when the save succeeds.
     */
    method HandleSave(saveSucceeds: bool) returns (sent: Option<Semester>, alert: string)
      requires Valid()
      modifies this
      ensures sent.Some? <==> Ready(old(form))
      ensures sent.None? ==> alert == FillAllMessage
      ensures sent.Some? ==> sent.value == old(form) && alert == (if saveSucceeds then SavedMessage else SaveFailedMessage)
      ensures draft == if sent.Some? && saveSucceeds then None else old(draft)
      ensures form == old(form) && availableCourses == old(availableCourses) && Valid()
    {
      if !Ready(form) {
        return None, FillAllMessage;
      }
      sent := Some(form);
      if saveSucceeds {
        draft := None;
        alert := SavedMessage;
      } else {
        alert := SaveFailedMessage;
      }
    }
  }
}
