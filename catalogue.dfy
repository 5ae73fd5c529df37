/**
 * The admin course catalogue hook (frontend/src/hooks/useCatalogue.js): the
 * list of courses, the course being added or edited, and the query chosen
 * from the filters. Database calls are outcomes passed in.
 */
module Catalogue {
  import opened Wrappers
  import opened Text
  import Lists
  import Filters
  import Validation

  /** A program reference as stored: a number or a name. */
  datatype ProgramRef = ProgramId(n: int) | ProgramName(s: string)

  /** A course record; `years` and `program` may be null in a record read back from the database. */
  datatype Course = Course(id: Option<int>, title: string, description: string, teacher: string,
                           language: string, program: Option<seq<ProgramRef>>, kind: string,
                           years: Option<seq<int>>)

  /** `initialCourse`. */
  const InitialCourse := Course(None, "", "", "", "Rus", Some([]), "tech", Some([]))

  /** The names the catalogue hook returns to its consumers; `setCourses` is not among them. */
  const HookExports: set<string> := {"courses", "loading", "error", "currentCourse", "setShowAddForm",
    "showAddForm", "handleChange", "handleYearsChange", "handleSubmit", "handleCancel", "handleDeleteCourse",
    "startEditingCourse", "startAddingCourse", "courseTypeFilter", "setCourseTypeFilter", "filters", "setFilters"}

  const LoadFailedMessage := "Failed to load courses"
  const EditLoadFailedMessage := "Failed to load course for editing"

  /** `String(p)` for a program reference. */
  function ProgramString(p: ProgramRef): (r: ProgramRef)
    ensures r.ProgramName?
    ensures p.ProgramName? ==> r == p
  {
    match p
    case ProgramName(s) => p
    case ProgramId(n) => ProgramName(if n >= 0 then NatToString(n) else "-" + NatToString(-n))
  }

  /**
   * The normalisation `startEditingCourse` and `handleSubmit` apply: null
   * lists become empty, every program becomes a string; years are kept as
   * the numbers they are.
   */
  function Normalize(c: Course): (r: Course)
    ensures r.years == Some(c.years.GetOr([]))
    ensures r.program.Some? && |r.program.value| == |c.program.GetOr([])|
    ensures forall i :: 0 <= i < |r.program.value| ==> r.program.value[i] == ProgramString(c.program.GetOr([])[i])
    ensures r.id == c.id && r.title == c.title && r.description == c.description && r.teacher == c.teacher
    ensures r.language == c.language && r.kind == c.kind
  {
    var ps := c.program.GetOr([]);
    c.(years := Some(c.years.GetOr([])),
       program := Some(seq(|ps|, i requires 0 <= i < |ps| => ProgramString(ps[i]))))
  }

  /** Normalising twice is normalising once. */
  lemma NormalizeIdempotent(c: Course)
    ensures Normalize(Normalize(c)) == Normalize(c)
  {
    var n := Normalize(c);
    var nn := Normalize(n);
    assert nn.program.value == n.program.value;
  }

  /** A course id is truthy when present and not 0. */
  predicate HasId(c: Course) {
    c.id.Some? && c.id.value != 0
  }

  /** `prev.map(c => c.id === updated.id ? updated : c)`. */
  function ReplaceById(courses: seq<Course>, updated: Course): (r: seq<Course>)
    ensures |r| == |courses|
    ensures forall i :: 0 <= i < |courses| ==> r[i] == if courses[i].id == updated.id then updated else courses[i]
  {
    Lists.ReplaceWhere(courses, (c: Course) => c.id == updated.id, updated)
  }

  /** `prev.filter(c => c.id !== id)`. */
  function RemoveById(courses: seq<Course>, id: Option<int>): (r: seq<Course>)
    ensures forall c :: c in r <==> c in courses && c.id != id
  {
    Lists.Filter(courses, (c: Course) => c.id != id)
  }

  /** Deleting keeps the survivors in order: it distributes over concatenation, and changes nothing when no id matches. */
  lemma RemoveByIdKeepsOrder(a: seq<Course>, b: seq<Course>, id: Option<int>)
    ensures RemoveById(a + b, id) == RemoveById(a, id) + RemoveById(b, id)
    ensures (forall i :: 0 <= i < |a| ==> a[i].id != id) ==> RemoveById(a, id) == a
  {
    Lists.FilterAppend(a, b, (c: Course) => c.id != id);
    if forall i :: 0 <= i < |a| ==> a[i].id != id {
      Lists.FilterAll(a, (c: Course) => c.id != id);
    }
  }

  /** The filters the loader sends: a set type filter replaces `types` by that one type. */
  function ActiveFilters(f: Filters.Filters, typeFilter: Option<string>): (r: Filters.Filters)
    ensures typeFilter.Some? && typeFilter.value != "" ==> Filters.Category(r, Filters.TypesKey) == [Filters.Str(typeFilter.value)]
    ensures !(typeFilter.Some? && typeFilter.value != "") ==> r == f
    ensures forall c :: c != Filters.TypesKey ==> Filters.Category(r, c) == Filters.Category(f, c)
  {
    if typeFilter.Some? && typeFilter.value != "" then
      f.(lists := f.lists[Filters.TypesKey := [Filters.Str(typeFilter.value)]])
    else f
  }

  /** Some category holds a value (`isArchived` has no length and never counts). */
  predicate HasFilters(f: Filters.Filters) {
    exists c :: c in f.lists && |f.lists[c]| > 0
  }

  /** The query the loader runs. */
  datatype Query = FilterQuery(filters: Filters.Filters) | FetchAll(email: string, admin: bool)

  /**
   * The loader's choice: the filter query exactly when some active filter is
   * non-empty, which is always the case while a type filter is set;
   * otherwise all courses for the email, scoped by whether `isAdmin` holds
   * of it.
   */
  function ChooseQuery(f: Filters.Filters, typeFilter: Option<string>, email: string): (q: Query)
    ensures q.FilterQuery? <==> HasFilters(ActiveFilters(f, typeFilter))
    ensures q.FilterQuery? ==> q.filters == ActiveFilters(f, typeFilter)
    ensures typeFilter.Some? && typeFilter.value != "" ==> q.FilterQuery?
    ensures q.FetchAll? ==> q == FetchAll(email, Validation.IsAdmin(email))
  {
    var active := ActiveFilters(f, typeFilter);
    assert typeFilter.Some? && typeFilter.value != "" ==> Filters.TypesKey in active.lists && |active.lists[Filters.TypesKey]| > 0;
    if HasFilters(active) then FilterQuery(active) else FetchAll(email, Validation.IsAdmin(email))
  }

  /** The value a form control hands to `handleChange`: a text, or the names the program select returns. */
  datatype FieldValue = Text(s: string) | Names(ns: seq<string>)

  /** The program select's names as program references. */
  function ProgramNames(ns: seq<string>): (ps: seq<ProgramRef>)
    ensures |ps| == |ns| && forall i :: 0 <= i < |ns| ==> ps[i] == ProgramName(ns[i])
  {
    seq(|ns|, i requires 0 <= i < |ns| => ProgramName(ns[i]))
  }

  /** What the database returned for an edit or an insert. */
  datatype Saved = Failed(message: string) | Stored(course: Course)

  class CatalogueState {
    var courses: seq<Course>
    var loading: bool
    var error: Option<string>
    var showAddForm: bool
    var currentCourse: Course

    /** The form's lists are arrays, as the year toggle needs. */
    predicate Valid()
      reads this
    {
      currentCourse.years.Some? && currentCourse.program.Some?
    }

    constructor ()
      ensures Valid()
      ensures courses == [] && !loading && error == None && !showAddForm && currentCourse == InitialCourse
    {
      courses := [];
      loading := false;
      error := None;
      showAddForm := false;
      currentCourse := InitialCourse;
    }

    /** The loading effect: the returned list, or an empty list and the error's message. */
    method LoadCourses(result: Option<seq<Course>>, message: string)
      modifies this
      ensures !loading
      ensures result.Some? ==> courses == result.value && error == old(error)
      ensures result.None? ==> courses == [] && error == Some(if message != "" then message else LoadFailedMessage)
      ensures showAddForm == old(showAddForm) && currentCourse == old(currentCourse)
    {
      loading := true;
      if result.Some? {
        courses := result.value;
      } else {
        courses := [];
        error := Some(if message != "" then message else LoadFailedMessage);
      }
      loading := false;
    }

    /**
     * `startEditingCourse`: the course from the list, or else the fetched
     * one, normalised and opened in the form; a failed fetch only sets the
     * error.
     */
    method StartEditingCourse(courseId: Option<int>, fetched: Option<Course>)
      modifies this
      ensures courses == old(courses) && loading == old(loading)
      ensures var local := Lists.Find(old(courses), (c: Course) => c.id == courseId);
        && (local.Some? ==> currentCourse == Normalize(local.value) && showAddForm && error == old(error))
        && (local.None? && fetched.Some? ==> currentCourse == Normalize(fetched.value) && showAddForm && error == old(error))
        && (local.None? && fetched.None? ==>
              error == Some(EditLoadFailedMessage) && currentCourse == old(currentCourse) && showAddForm == old(showAddForm))
      ensures old(Valid()) ==> Valid()
    {
      var local := Lists.Find(courses, (c: Course) => c.id == courseId);
      var course: Course;
      if local.Some? {
        course := local.value;
      } else if fetched.Some? {
        course := fetched.value;
      } else {
        error := Some(EditLoadFailedMessage);
        return;
      }
      currentCourse := Normalize(course);
      showAddForm := true;
    }

    /** `startAddingCourse`. */
    method StartAddingCourse()
      modifies this
      ensures Valid() && currentCourse == InitialCourse && showAddForm
      ensures courses == old(courses) && error == old(error) && loading == old(loading)
    {
      currentCourse := InitialCourse;
      showAddForm := true;
    }

    /** `handleYearsChange`: the year is dropped when selected, otherwise appended; no other year changes. */
    method HandleYearsChange(year: int)
      requires Valid()
      modifies this
      ensures Valid()
      ensures currentCourse == old(currentCourse).(years := Some(Lists.Toggle(old(currentCourse).years.value, year)))
      ensures year in currentCourse.years.value <==> year !in old(currentCourse).years.value
      ensures forall y :: y != year ==> (y in currentCourse.years.value <==> y in old(currentCourse).years.value)
      ensures courses == old(courses) && error == old(error) && showAddForm == old(showAddForm) && loading == old(loading)
    {
      var prevYears := currentCourse.years.value;
      Lists.ToggleMembership(prevYears, year);
      var years := if year in prevYears then Lists.RemoveAll(prevYears, year) else prevYears + [year];
      currentCourse := currentCourse.(years := Some(years));
    }

    /**
     * `handleChange({name, value})`: the named field takes the value — a text
     * for the text fields and the type, a list of names for the programs.
     * Any other name, or a value of another shape, adds a key the course
     * record does not hold, so the modelled fields stay as they are.
     */
    method HandleChange(field: string, value: FieldValue)
      requires Valid()
      modifies this
      ensures Valid()
      ensures currentCourse == (match (field, value)
        case ("title", Text(s)) => old(currentCourse).(title := s)
        case ("description", Text(s)) => old(currentCourse).(description := s)
        case ("teacher", Text(s)) => old(currentCourse).(teacher := s)
        case ("language", Text(s)) => old(currentCourse).(language := s)
        case ("type", Text(s)) => old(currentCourse).(kind := s)
        case ("program", Names(ns)) => old(currentCourse).(program := Some(ProgramNames(ns)))
        case _ => old(currentCourse))
      ensures courses == old(courses) && error == old(error) && showAddForm == old(showAddForm) && loading == old(loading)
    {
      match (field, value)
      case ("title", Text(s)) => currentCourse := currentCourse.(title := s);
      case ("description", Text(s)) => currentCourse := currentCourse.(description := s);
      case ("teacher", Text(s)) => currentCourse := currentCourse.(teacher := s);
      case ("language", Text(s)) => currentCourse := currentCourse.(language := s);
      case ("type", Text(s)) => currentCourse := currentCourse.(kind := s);
      case ("program", Names(ns)) => currentCourse := currentCourse.(program := Some(ProgramNames(ns)));
      case _ =>
    }

    /**
     * `handleSubmit`: with an id the saved course replaces every course of
     * that id, without one the stored course is appended. Success resets
     * and hides the form and clears the error; failure only sets the error.
     * `sent` is the normalised course handed to the database.
     */
    method HandleSubmit(saved: Saved) returns (sent: Course)
      modifies this
      ensures sent == Normalize(old(currentCourse))
      ensures saved.Failed? ==>
        && error == Some(saved.message) && courses == old(courses)
        && currentCourse == old(currentCourse) && showAddForm == old(showAddForm)
      ensures saved.Stored? ==>
        && courses == (if HasId(sent) then ReplaceById(old(courses), saved.course) else old(courses) + [saved.course])
        && currentCourse == InitialCourse && !showAddForm && error == None
      ensures loading == old(loading)
    {
      sent := Normalize(currentCourse);
      if saved.Failed? {
        error := Some(saved.message);
        return;
      }
      if HasId(sent) {
        courses := ReplaceById(courses, saved.course);
      } else {
        courses := courses + [saved.course];
      }
      currentCourse := InitialCourse;
      showAddForm := false;
      error := None;
    }

    /** `handleCancel`. */
    method HandleCancel()
      modifies this
      ensures Valid() && currentCourse == InitialCourse && !showAddForm && error == None
      ensures courses == old(courses) && loading == old(loading)
    {
      currentCourse := InitialCourse;
      showAddForm := false;
      error := None;
    }

    /** `handleDeleteCourse`: every course with that id leaves the list. */
    method HandleDeleteCourse(id: Option<int>)
      modifies this
      ensures courses == RemoveById(old(courses), id)
      ensures currentCourse == old(currentCourse) && error == old(error) && showAddForm == old(showAddForm) && loading == old(loading)
    {
      courses := RemoveById(courses, id);
    }
  }
}
