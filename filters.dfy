/**
 * The catalogue filter object shared by the student filter bar
 * (frontend/src/components/FilterBar.jsx) and the admin sidebar
 * (frontend/src/components/AdminFilterSidebar.jsx): lists of selected values
 * per category, an archived flag, and the toggles and selects that edit them.
 */
module Filters {
  import opened Wrappers
  import Lists

  /** A value in a filter list: the year buttons give numbers, the rest strings. */
  datatype FilterValue = Str(s: string) | Num(n: int)

  /** The filter object: a list per category (absent categories read as empty) and `isArchived`. */
  datatype Filters = Filters(lists: map<string, seq<FilterValue>>, isArchived: Option<bool>)

  const ProgramsKey := "programs"
  const YearsKey := "years"
  const TypesKey := "types"
  const LanguagesKey := "languages"

  /** `prev[category] || []`. */
  function Category(f: Filters, category: string): seq<FilterValue> {
    if category in f.lists then f.lists[category] else []
  }

  /** `isActive(category, value)`. */
  predicate IsActive(f: Filters, category: string, value: FilterValue) {
    value in Category(f, category)
  }

  /** `handleButtonFilter` / `toggleFilter`: the include-toggle on one category's list. */
  function Toggle(f: Filters, category: string, value: FilterValue): (r: Filters)
    ensures IsActive(r, category, value) <==> !IsActive(f, category, value)
    ensures forall v :: v != value ==> (IsActive(r, category, v) <==> IsActive(f, category, v))
    ensures forall c :: c != category ==> Category(r, c) == Category(f, c)
    ensures forall c :: c != category ==> (c in r.lists <==> c in f.lists)
    ensures r.isArchived == f.isArchived
  {
    Lists.ToggleMembership(Category(f, category), value);
    f.(lists := f.lists[category := Lists.Toggle(Category(f, category), value)])
  }

  /** Pressing the same button twice restores which values are active in every category. */
  lemma ToggleTwice(f: Filters, category: string, value: FilterValue)
    ensures forall c, v :: IsActive(Toggle(Toggle(f, category, value), category, value), c, v) <==> IsActive(f, c, v)
  {
  }

  /** The program (or year) multi-select: the chosen values, or [] when the selection is cleared to null. */
  function Select(f: Filters, category: string, selected: Option<seq<FilterValue>>): (r: Filters)
    ensures Category(r, category) == selected.GetOr([])
    ensures forall c :: c != category ==> Category(r, c) == Category(f, c)
    ensures r.isArchived == f.isArchived
  {
    f.(lists := f.lists[category := selected.GetOr([])])
  }

  /** The archived buttons: `isArchived` becomes exactly the option's value. */
  function SetArchived(f: Filters, archived: bool): (r: Filters)
    ensures r.isArchived == Some(archived) && r.lists == f.lists
  {
    f.(isArchived := Some(archived))
  }

  /** The object `handleRejectAll` installs: four empty lists and `isArchived` false. */
  const Cleared := Filters(map[ProgramsKey := [], YearsKey := [], TypesKey := [], LanguagesKey := []], Some(false))

  /** After "Reject All" no value is active in any category. */
  lemma ClearedHasNothingActive()
    ensures forall c, v :: !IsActive(Cleared, c, v)
    ensures Cleared.isArchived == Some(false)
  {
    forall c ensures Category(Cleared, c) == [] {
    }
  }

  /** The filter state the two components edit, with the admin sidebar's view mode. */
  class FilterState {
    var filters: Filters
    var viewMode: string

    constructor (filters: Filters, viewMode: string)
      ensures this.filters == filters && this.viewMode == viewMode
    {
      this.filters := filters;
      this.viewMode := viewMode;
    }

    /** `handleButtonFilter(category, value)` in the filter bar, `toggleFilter` in the sidebar. */
    method ToggleFilter(category: string, value: FilterValue)
      modifies this
      ensures filters == Toggle(old(filters), category, value) && viewMode == old(viewMode)
    {
      filters := Toggle(filters, category, value);
    }

    /** The program select of either component, or the sidebar's year select. */
    method HandleSelectChange(category: string, selected: Option<seq<FilterValue>>)
      modifies this
      ensures filters == Select(old(filters), category, selected) && viewMode == old(viewMode)
    {
      filters := Select(filters, category, selected);
    }

    /** The "Active"/"Archived" buttons. */
    method SetArchivedFilter(archived: bool)
      modifies this
      ensures filters == SetArchived(old(filters), archived) && viewMode == old(viewMode)
    {
      filters := SetArchived(filters, archived);
    }

    /** `handleRejectAll`: the cleared filters and the compact view. */
    method HandleRejectAll()
      modifies this
      ensures filters == Cleared && viewMode == "compact"
    {
      filters := Cleared;
      viewMode := "compact";
    }

    /** The sidebar's view buttons. */
    method SetViewMode(mode: string)
      modifies this
      ensures viewMode == mode && filters == old(filters)
    {
      viewMode := mode;
    }
  }
}
