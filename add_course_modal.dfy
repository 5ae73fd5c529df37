/**
 * The course form's submit guard and key handling
 * (frontend/src/components/AddCourseModal.jsx): three checks run in order,
 * the first that fails is reported and nothing is submitted; Escape cancels.
 */
module CourseModal {
  import opened Wrappers
  import Catalogue
  import Lists

  const LanguageMessage := "Please select a language."
  const ProgramMessage := "Please select at least one program."
  const YearMessage := "Please select at least one year."

  /** What the modal does in answer to an event. */
  datatype Response = Cancel | Alert(message: string) | Submit | Ignore

  datatype Event = KeyDown(key: string) | FormSubmit

  /** `!course.program || course.program.length === 0`. */
  predicate NoPrograms(c: Catalogue.Course) {
    c.program.None? || |c.program.value| == 0
  }

  /** `!course.years || course.years.length === 0`. */
  predicate NoYears(c: Catalogue.Course) {
    c.years.None? || |c.years.value| == 0
  }

  /** The message of every check the course fails, in the order the checks are written. */
  function Failures(c: Catalogue.Course): (ms: seq<string>)
    ensures |ms| <= 3
    ensures ms == [] <==> c.language != "" && !NoPrograms(c) && !NoYears(c)
  {
    (if c.language == "" then [LanguageMessage] else [])
    + (if NoPrograms(c) then [ProgramMessage] else [])
    + (if NoYears(c) then [YearMessage] else [])
  }

  /** `handleFormSubmit`: the first failing check's alert, or the one `onSubmit` call. */
  function HandleFormSubmit(c: Catalogue.Course): (r: Response)
    ensures r.Submit? || r.Alert?
    ensures r.Submit? <==> c.language != "" && !NoPrograms(c) && !NoYears(c)
    ensures r == Alert(LanguageMessage) <==> c.language == ""
    ensures r == Alert(ProgramMessage) <==> c.language != "" && NoPrograms(c)
    ensures r == Alert(YearMessage) <==> c.language != "" && !NoPrograms(c) && NoYears(c)
  {
    if c.language == "" then Alert(LanguageMessage)
    else if NoPrograms(c) then Alert(ProgramMessage)
    else if NoYears(c) then Alert(YearMessage)
    else Submit
  }

  /** Only the first failure is shown: the alert is the head of the list of failed checks. */
  lemma FirstFailureShown(c: Catalogue.Course)
    ensures HandleFormSubmit(c).Alert? <==> Failures(c) != []
    ensures HandleFormSubmit(c).Alert? ==> HandleFormSubmit(c).message == Failures(c)[0]
  {
    var ms := Failures(c);
    if c.language == "" {
      assert ms[0] == LanguageMessage;
    } else if NoPrograms(c) {
      assert ms[0] == ProgramMessage;
    } else if NoYears(c) {
      assert ms[0] == YearMessage;
    }
  }

  /**
   * The answer of a modal to an event, shared by this modal and the student
   * program modal, whose key listener and form submit are written the same
   * way: Escape cancels, other keys do nothing, and submitting gives `guard`,
   * the modal's own `handleFormSubmit` result, which is a submit or an alert.
   */
  function Respond(guard: Response, e: Event): (r: Response)
    requires guard.Submit? || guard.Alert?
    ensures r.Cancel? <==> e == KeyDown("Escape")
    ensures e.KeyDown? && e.key != "Escape" ==> r.Ignore?
    ensures e.FormSubmit? ==> r == guard
  {
    match e
    case KeyDown(key) => if key == "Escape" then Cancel else Ignore
    case FormSubmit => guard
  }

  /** A blank form is refused for its programs: its language defaults to "Rus", and the program list is empty. */
  lemma InitialCourseNeedsProgram()
    ensures HandleFormSubmit(Catalogue.InitialCourse) == Alert(ProgramMessage)
    ensures Failures(Catalogue.InitialCourse) == [ProgramMessage, YearMessage]
  {
  }

  /** Ticking a year is what the last check waits for: with language and programs set, toggling in a year turns the year alert into a submit. */
  lemma AddingYearAllowsSubmit(c: Catalogue.Course, year: int)
    requires c.language != "" && !NoPrograms(c) && c.years == Some([])
    ensures HandleFormSubmit(c) == Alert(YearMessage)
    ensures HandleFormSubmit(c.(years := Some(Lists.Toggle([], year)))) == Submit
  {
    Lists.ToggleMembership([], year);
  }
}
