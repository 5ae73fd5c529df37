/**
 * The two-step course suggestion page (frontend/src/pages/SuggestFormPage.jsx):
 * step 1 asks for a name and a captcha token, step 2 fills the course form
 * held by the catalogue hook and submits the suggestion. The captcha widget
 * and the database insert are outcomes passed in.
 */
module SuggestForm {
  import opened Wrappers
  import Text
  import Catalogue

  const NameMessage := "Please enter your name"
  const CaptchaMessage := "r u alex potyomkin?..."
  const SubmittedNotice := "Your course suggestion was submitted successfully!"
  const FailurePrefix := "Error while adding course: "

  /** The row inserted into `suggested_courses`. */
  datatype Suggestion = Suggestion(title: string, description: string, teacher: string, language: string,
                                   kind: string, years: Option<seq<int>>, program: Option<seq<Catalogue.ProgramRef>>,
                                   creator: string, archived: bool, isDeclined: bool)

  /** `newCourse`: the form's course fields as they are, the name as creator, neither archived nor declined. */
  function NewSuggestion(c: Catalogue.Course, fullName: string): (s: Suggestion)
    ensures s.creator == fullName && !s.archived && !s.isDeclined
    ensures s.title == c.title && s.description == c.description && s.teacher == c.teacher
    ensures s.language == c.language && s.kind == c.kind && s.years == c.years && s.program == c.program
  {
    Suggestion(c.title, c.description, c.teacher, c.language, c.kind, c.years, c.program, fullName, false, false)
  }

  /**
   * The clearing calls after "Next" as written: each passes the field name
   * and value as two arguments to a handler that takes one `{name, value}`
   * object, so each writes the key `undefined` and no course field changes.
   */
  function ClearAsWritten(c: Catalogue.Course): Catalogue.Course {
    c
  }

  /** As written, the suggestion form opens with the blank course's language and type already chosen. */
  lemma ClearAsWrittenKeepsDefaults()
    ensures ClearAsWritten(Catalogue.InitialCourse).language == "Rus"
    ensures ClearAsWritten(Catalogue.InitialCourse).kind == "tech"
  {
  }

  /** The clearing calls as intended: every text field, the type and both lists start empty. */
  function ClearIntended(c: Catalogue.Course): (r: Catalogue.Course)
    ensures r.title == "" && r.description == "" && r.teacher == "" && r.language == "" && r.kind == ""
    ensures r.years == Some([]) && r.program == Some([]) && r.id == c.id
  {
    c.(title := "", description := "", teacher := "", language := "", kind := "", years := Some([]), program := Some([]))
  }

  /** What the form guard then asks of a freshly cleared suggestion: a language first. */
  lemma ClearedNeedsLanguage(c: Catalogue.Course)
    ensures ClearIntended(c).language == "" && ClearAsWritten(Catalogue.InitialCourse).language != ""
  {
  }

  /**
   * How a submit ends: the insert reported an error and a notice says so;
   * the handler threw before it could show anything; or it completed, with
   * the success notice.
   */
  datatype SubmitOutcome = Rejected(notice: string) | Threw | Completed(notice: string)

  /**
   * `handleSubmit` after the insert, given whether the `setCourses` it
   * destructures from the catalogue is a function. Calling `undefined`
   * raises a TypeError, which rejects the async handler's promise before
   * the notice and the resets run.
   */
  function SubmitOutcomeOf(setCoursesDefined: bool, inserted: bool, errorMessage: string): (r: SubmitOutcome)
    ensures r.Rejected? <==> !inserted
    ensures r.Rejected? ==> r.notice == FailurePrefix + errorMessage
    ensures r.Threw? <==> inserted && !setCoursesDefined
    ensures r.Completed? ==> r.notice == SubmittedNotice
  {
    if !inserted then Rejected(FailurePrefix + errorMessage)
    else if !setCoursesDefined then Threw
    else Completed(SubmittedNotice)
  }

  /**
   * As written: the catalogue hook does not return `setCourses`, so every
   * insert that succeeds ends in the TypeError.
   */
  function SubmitAsWritten(inserted: bool, errorMessage: string): (r: SubmitOutcome)
    ensures inserted ==> r == Threw
    ensures !inserted ==> r == Rejected(FailurePrefix + errorMessage)
  {
    SubmitOutcomeOf("setCourses" in Catalogue.HookExports, inserted, errorMessage)
  }

  /** As intended: with a `setCourses` to call, a successful insert completes. */
  function SubmitIntended(inserted: bool, errorMessage: string): (r: SubmitOutcome)
    ensures inserted ==> r == Completed(SubmittedNotice)
    ensures !inserted ==> r == Rejected(FailurePrefix + errorMessage)
  {
    SubmitOutcomeOf(true, inserted, errorMessage)
  }

  /**
   * The success path is unreachable as written: no insert outcome makes the
   * handler complete, while the intended handler completes on every
   * successful insert. The two agree on every failed insert.
   */
  lemma SubmitNeverCompletesAsWritten(inserted: bool, errorMessage: string)
    ensures !SubmitAsWritten(inserted, errorMessage).Completed?
    ensures inserted ==> SubmitAsWritten(inserted, errorMessage) != SubmitIntended(inserted, errorMessage)
    ensures !inserted ==> SubmitAsWritten(inserted, errorMessage) == SubmitIntended(inserted, errorMessage)
  {
    assert "setCourses" !in Catalogue.HookExports;
  }

  class Page {
    var step: int
    var message: string
    var fullName: string
    var recaptchaToken: Option<string>
    /** The catalogue hook the page shares through its context. */
    const catalogue: Catalogue.CatalogueState

    predicate Valid()
      reads this, catalogue
    {
      (step == 1 || step == 2) && catalogue.Valid()
    }

    constructor (catalogue: Catalogue.CatalogueState)
      requires catalogue.Valid()
      ensures Valid() && this.catalogue == catalogue
      ensures step == 1 && message == "" && fullName == "" && recaptchaToken == None
    {
      step := 1;
      message := "";
      fullName := "";
      recaptchaToken := None;
      this.catalogue := catalogue;
    }

    /** The name input. */
    method SetFullName(name: string)
      modifies this
      ensures fullName == name && step == old(step) && message == old(message) && recaptchaToken == old(recaptchaToken)
    {
      fullName := name;
    }

    /** The captcha's `onChange`: a token, or null when it expires. */
    method HandleRecaptchaChange(token: Option<string>)
      modifies this
      ensures recaptchaToken == token && step == old(step) && message == old(message) && fullName == old(fullName)
    {
      recaptchaToken := token;
    }

    /**
     * `handleContinue` (also bound to Enter): a name that is blank once
     * trimmed, then a missing token, keeps step 1 with a message; otherwise
     * the message is cleared, a blank course is opened and step 2 begins.
     */
    method HandleContinue()
      requires Valid()
      modifies this, catalogue
      ensures Valid() && fullName == old(fullName) && recaptchaToken == old(recaptchaToken)
      ensures Text.JsTrim(fullName) == "" ==> message == NameMessage && step == old(step) && catalogue.currentCourse == old(catalogue.currentCourse)
      ensures Text.JsTrim(fullName) != "" && (recaptchaToken.None? || recaptchaToken == Some("")) ==>
        message == CaptchaMessage && step == old(step) && catalogue.currentCourse == old(catalogue.currentCourse)
      ensures Text.JsTrim(fullName) != "" && recaptchaToken.Some? && recaptchaToken.value != "" ==>
        message == "" && step == 2 && catalogue.showAddForm && catalogue.currentCourse == ClearIntended(Catalogue.InitialCourse)
      ensures catalogue.courses == old(catalogue.courses) && catalogue.error == old(catalogue.error)
    {
      if Text.JsTrim(fullName) == "" {
        message := NameMessage;
        return;
      }
      if recaptchaToken.None? || recaptchaToken.value == "" {
        message := CaptchaMessage;
        return;
      }
      message := "";
      catalogue.StartAddingCourse();
      catalogue.currentCourse := ClearIntended(catalogue.currentCourse);
      step := 2;
    }

    /**
     * `handleSubmit` as written: the suggestion built from the form and the
     * name is inserted, but on success the call to the missing `setCourses`
     * throws, so neither the page nor the catalogue changes and no notice is
     * shown. The user is left on step 2 with the same form, and submitting
     * again sends the same row.
     */
    method HandleSubmitAsWritten(inserted: Option<Option<seq<Catalogue.Course>>>, errorMessage: string)
      returns (sent: Suggestion, outcome: SubmitOutcome)
      requires Valid()
      ensures sent == NewSuggestion(catalogue.currentCourse, fullName)
      ensures outcome == SubmitAsWritten(inserted.Some?, errorMessage)
      ensures outcome.Threw? <==> inserted.Some?
    {
      sent := NewSuggestion(catalogue.currentCourse, fullName);
      outcome := SubmitAsWritten(inserted.Some?, errorMessage);
    }

    /**
     * `handleSubmit` as intended: on success the inserted rows join the
     * course list, the form closes and step 1 starts over with no name and
     * no token; on an error only the notice is shown.
     */
    method HandleSubmit(inserted: Option<Option<seq<Catalogue.Course>>>, errorMessage: string)
      returns (sent: Suggestion, outcome: SubmitOutcome)
      requires Valid()
      modifies this, catalogue
      ensures Valid()
      ensures sent == NewSuggestion(old(catalogue.currentCourse), old(fullName))
      ensures outcome == SubmitIntended(inserted.Some?, errorMessage)
      ensures inserted.Some? ==>
        && catalogue.courses == old(catalogue.courses) + inserted.value.GetOr([])
        && catalogue.currentCourse == Catalogue.InitialCourse && !catalogue.showAddForm
        && step == 1 && fullName == "" && recaptchaToken == None
      ensures inserted.None? ==>
        && catalogue.courses == old(catalogue.courses) && catalogue.currentCourse == old(catalogue.currentCourse)
        && step == old(step) && fullName == old(fullName) && recaptchaToken == old(recaptchaToken)
      ensures message == old(message)
    {
      sent := NewSuggestion(catalogue.currentCourse, fullName);
      outcome := SubmitIntended(inserted.Some?, errorMessage);
      if inserted.None? {
        return;
      }
      catalogue.courses := catalogue.courses + inserted.value.GetOr([]);
      catalogue.HandleCancel();
      step := 1;
      fullName := "";
      recaptchaToken := None;
    }

    /** `handleModalCancel`: the form closes and step 1 starts over with no message, no name and no token. */
    method HandleModalCancel()
      requires Valid()
      modifies this, catalogue
      ensures Valid()
      ensures step == 1 && message == "" && fullName == "" && recaptchaToken == None
      ensures catalogue.currentCourse == Catalogue.InitialCourse && !catalogue.showAddForm && catalogue.error == None
      ensures catalogue.courses == old(catalogue.courses)
    {
      catalogue.HandleCancel();
      step := 1;
      message := "";
      fullName := "";
      recaptchaToken := None;
    }
  }
}
