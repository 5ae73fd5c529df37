/**
 * The student program form's submit guard and stage buttons
 * (frontend/src/components/AddStudentProgramModal.jsx), over the form object
 * of the program list hook. Its key handling is `CourseModal.Respond`.
 */
module ProgramModal {
  import opened Programs
  import CourseModal

  const FillAllMessage := "Please fill all required fields"

  const StageField := "stage"
  const YearField := "year"
  const DeadlineField := "deadline"

  /** The values the three stage buttons pass, in button order. */
  const Stages := ["B", "M", "P"]

  /**
   * `handleFormSubmit`: refused with one alert unless stage, year and short
   * name are all truthy; the counts and the deadline are not looked at.
   */
  function HandleFormSubmit(d: ProgramData): (r: CourseModal.Response)
    ensures r.Submit? || r == CourseModal.Alert(FillAllMessage)
    ensures r.Submit? <==> Truthy(d, StageField) && Truthy(d, YearField) && Truthy(d, ShortNameField)
  {
    if !Truthy(d, StageField) || !Truthy(d, YearField) || !Truthy(d, ShortNameField) then CourseModal.Alert(FillAllMessage)
    else CourseModal.Submit
  }

  /** The guard reads only stage, year and short name: any other field may hold anything. */
  lemma GuardIgnoresOtherFields(d: ProgramData, name: string, v: Value)
    requires name != StageField && name != YearField && name != ShortNameField
    ensures HandleFormSubmit(d[name := v]) == HandleFormSubmit(d)
  {
    assert forall f :: f != name ==> Truthy(d[name := v], f) == Truthy(d, f);
  }

  /** The stage button at position `i` sets the stage to a truthy value among B, M and P. */
  function PressStage(d: ProgramData, i: nat): (r: ProgramData)
    requires i < |Stages|
    ensures StageField in r && r[StageField] in {Str("B"), Str("M"), Str("P")}
    ensures Truthy(r, StageField)
    ensures forall f :: f != StageField ==> (f in r <==> f in d) && (f in d ==> r[f] == d[f])
  {
    d[StageField := Str(Stages[i])]
  }

  /**
   * Neither a blank form nor the one `startEditingProgram` fills can be
   * submitted as it is: neither has a stage or a year until the user sets
   * them.
   */
  lemma FreshFormsAreRefused(p: Program)
    ensures HandleFormSubmit(InitialProgram) == CourseModal.Alert(FillAllMessage)
    ensures HandleFormSubmit(EditForm(p)) == CourseModal.Alert(FillAllMessage)
  {
    assert StageField !in InitialProgram;
    assert StageField !in EditForm(p);
  }

  /**
   * Pressing a stage button, typing a year and a short name is enough for
   * `handleFormSubmit` to submit, whatever else the form holds. The inputs
   * also carry the HTML `required` attribute, which the browser checks
   * before the handler runs; that check is not modelled.
   */
  lemma StageYearNameSuffice(d: ProgramData, i: nat, year: Value, name: string)
    requires i < |Stages| && name != ""
    requires year != Str("")
    requires year.Num? ==> year.n != 0
    ensures HandleFormSubmit(PressStage(d, i)[YearField := year][ShortNameField := Str(name)]) == CourseModal.Submit
  {
    var r := PressStage(d, i)[YearField := year][ShortNameField := Str(name)];
    assert r[StageField] == PressStage(d, i)[StageField];
  }
}
