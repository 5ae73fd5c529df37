/**
 * The stand-alone course catalogue page (frontend/App.js): favourites and
 * votes kept in state and mirrored to localStorage, the course detail
 * modal, and the view that shows either every course or the favourites.
 */
module App {
  import opened Wrappers
  import Lists
  import VotingForm

  datatype Course = Course(id: int, title: string)

  /** The form data `VotingForm` hands on. */
  datatype VoteData = VoteData(name: string, email: string, comments: string, priorities: seq<VotingForm.Entry>)

  /** A recorded vote: the form data with the time it was cast. */
  datatype Vote = Vote(data: VoteData, timestamp: string)

  const CatalogueView := "catalogue"

  /** `handleVoteSubmit`'s test: every priority, blank ones included, differs from every other. */
  function HasDuplicatePriorities(data: VoteData): (dup: bool)
    ensures dup <==> !VotingForm.AllDifferent(VotingForm.Values(data.priorities))
  {
    var values := VotingForm.Values(data.priorities);
    VotingForm.SetSizeDetectsDuplicates(values);
    |VotingForm.SetOf(values)| != |values|
  }

  /** `coursesToShow`: every course in the catalogue view, otherwise the favourites in catalogue order. */
  function CoursesToShow(view: string, courses: seq<Course>, favorites: seq<int>): (shown: seq<Course>)
    ensures view == CatalogueView ==> shown == courses
    ensures view != CatalogueView ==>
      && (forall i :: 0 <= i < |shown| ==> shown[i] in courses && shown[i].id in favorites)
      && (forall i :: 0 <= i < |courses| && courses[i].id in favorites ==> courses[i] in shown)
  {
    if view == CatalogueView then courses
    else Lists.Filter(courses, (c: Course) => c.id in favorites)
  }

  /** Marking a course as favourite makes it appear outside the catalogue view; marking it again hides it. */
  lemma ToggledFavoriteShown(view: string, courses: seq<Course>, favorites: seq<int>, c: Course)
    requires view != CatalogueView && c in courses
    ensures c in CoursesToShow(view, courses, Lists.Toggle(favorites, c.id)) <==> c.id !in favorites
  {
    Lists.ToggleMembership(favorites, c.id);
    var i :| 0 <= i < |courses| && courses[i] == c;
  }

  /** The favourites view lists courses in catalogue order: showing is a filter, so it distributes over concatenation. */
  lemma ShownKeepsOrder(view: string, a: seq<Course>, b: seq<Course>, favorites: seq<int>)
    requires view != CatalogueView
    ensures CoursesToShow(view, a + b, favorites) == CoursesToShow(view, a, favorites) + CoursesToShow(view, b, favorites)
  {
    Lists.FilterAppend(a, b, (c: Course) => c.id in favorites);
  }

  class Page {
    var currentView: string
    var courses: seq<Course>
    var favorites: seq<int>
    var votes: seq<Vote>
    var selectedCourse: Option<Course>
    var showModal: bool
    var isMobileMenuOpen: bool
    /** localStorage's `favorites` and `votes` entries, as parsed. */
    var storedFavorites: Option<seq<int>>
    var storedVotes: Option<seq<Vote>>

    /** The page as it mounts, with `savedFavorites` and `savedVotes` read from storage (`|| []` when absent). */
    constructor (courses: seq<Course>, savedFavorites: Option<seq<int>>, savedVotes: Option<seq<Vote>>)
      ensures currentView == CatalogueView && this.courses == courses
      ensures favorites == savedFavorites.GetOr([]) && votes == savedVotes.GetOr([])
      ensures selectedCourse == None && !showModal && !isMobileMenuOpen
      ensures storedFavorites == savedFavorites && storedVotes == savedVotes
    {
      currentView := CatalogueView;
      this.courses := courses;
      favorites := savedFavorites.GetOr([]);
      votes := savedVotes.GetOr([]);
      selectedCourse := None;
      showModal := false;
      isMobileMenuOpen := false;
      storedFavorites := savedFavorites;
      storedVotes := savedVotes;
    }

    /** `toggleFavorite`: drop the id when present, otherwise append it, and save the list. */
    method ToggleFavorite(courseId: int)
      modifies this
      ensures favorites == Lists.Toggle(old(favorites), courseId)
      ensures courseId in favorites <==> courseId !in old(favorites)
      ensures forall id :: id != courseId ==> (id in favorites <==> id in old(favorites))
      ensures storedFavorites == Some(favorites)
      ensures votes == old(votes) && storedVotes == old(storedVotes) && courses == old(courses)
      ensures currentView == old(currentView) && selectedCourse == old(selectedCourse) && showModal == old(showModal)
      ensures isMobileMenuOpen == old(isMobileMenuOpen)
    {
      Lists.ToggleMembership(favorites, courseId);
      var newFavorites := if courseId in favorites then Lists.RemoveAll(favorites, courseId) else favorites + [courseId];
      favorites := newFavorites;
      storedFavorites := Some(newFavorites);
    }

    /**
     * `handleVoteSubmit`: a vote whose priorities repeat a value is refused
     * with the votes unchanged; otherwise it is appended, stamped with
     * `timestamp`, and the list is saved.
     */
    method HandleVoteSubmit(data: VoteData, timestamp: string) returns (refused: bool)
      modifies this
      ensures refused <==> !VotingForm.AllDifferent(VotingForm.Values(data.priorities))
      ensures refused ==> votes == old(votes) && storedVotes == old(storedVotes)
      ensures !refused ==> votes == old(votes) + [Vote(data, timestamp)] && storedVotes == Some(votes)
      ensures favorites == old(favorites) && storedFavorites == old(storedFavorites) && courses == old(courses)
      ensures currentView == old(currentView) && selectedCourse == old(selectedCourse) && showModal == old(showModal)
      ensures isMobileMenuOpen == old(isMobileMenuOpen)
    {
      refused := HasDuplicatePriorities(data);
      if refused {
        return;
      }
      var newVotes := votes + [Vote(data, timestamp)];
      votes := newVotes;
      storedVotes := Some(newVotes);
    }

    /** `showCourseDetails`: select the course, open the modal, close the mobile menu. */
    method ShowCourseDetails(course: Course)
      modifies this
      ensures selectedCourse == Some(course) && showModal && !isMobileMenuOpen
      ensures currentView == old(currentView) && favorites == old(favorites) && votes == old(votes)
      ensures courses == old(courses) && storedFavorites == old(storedFavorites) && storedVotes == old(storedVotes)
    {
      selectedCourse := Some(course);
      showModal := true;
      isMobileMenuOpen := false;
    }

    /** `closeModal`: hide the modal and clear the selection. */
    method CloseModal()
      modifies this
      ensures !showModal && selectedCourse == None
      ensures currentView == old(currentView) && favorites == old(favorites) && votes == old(votes)
      ensures courses == old(courses) && isMobileMenuOpen == old(isMobileMenuOpen)
      ensures storedFavorites == old(storedFavorites) && storedVotes == old(storedVotes)
    {
      showModal := false;
      selectedCourse := None;
    }

    /** `handleViewChange` (and `returnToCatalogue` with the catalogue view): switch view, close the mobile menu. */
    method HandleViewChange(view: string)
      modifies this
      ensures currentView == view && !isMobileMenuOpen
      ensures favorites == old(favorites) && votes == old(votes) && courses == old(courses)
      ensures selectedCourse == old(selectedCourse) && showModal == old(showModal)
      ensures storedFavorites == old(storedFavorites) && storedVotes == old(storedVotes)
    {
      currentView := view;
      isMobileMenuOpen := false;
    }

    /** `toggleMobileMenu`. */
    method ToggleMobileMenu()
      modifies this
      ensures isMobileMenuOpen == !old(isMobileMenuOpen)
      ensures currentView == old(currentView) && favorites == old(favorites) && votes == old(votes)
      ensures courses == old(courses) && selectedCourse == old(selectedCourse) && showModal == old(showModal)
      ensures storedFavorites == old(storedFavorites) && storedVotes == old(storedVotes)
    {
      isMobileMenuOpen := !isMobileMenuOpen;
    }

    /** The courses the page lists. */
    function Shown(): seq<Course>
      reads this
    {
      CoursesToShow(currentView, courses, favorites)
    }
  }
}
