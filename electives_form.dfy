/**
 * The student's elective priority form (frontend/src/components/ElectivesForm.jsx):
 * one select per priority slot, saved in localStorage under
 * `electives-tech` or `electives-hum`, and a per-slot list of offered courses
 * that keeps one title from being chosen at two priorities.
 */
module ElectivesForm {
  import opened Wrappers
  import opened FormSubmit
  import Lists

  datatype Course = Course(id: int, title: string, kind: string)

  /** The `tech` and `hum` priority counts of the student's program. */
  datatype Program = Program(tech: nat, hum: nat)

  const LoadFailedMessage := "Failed to load data"

  function StorageKey(tab: Tab): string {
    "electives-" + tab.Name()
  }

  /** The courses of the form's own type. */
  function OfType(courses: seq<Course>, tab: Tab): (r: seq<Course>)
    ensures forall i :: 0 <= i < |r| ==> r[i] in courses && r[i].kind == tab.Name()
    ensures forall i :: 0 <= i < |courses| && courses[i].kind == tab.Name() ==> courses[i] in r
  {
    Lists.Filter(courses, (c: Course) => c.kind == tab.Name())
  }

  /** The slot count: `program.tech` on the tech form, `program.hum` otherwise. */
  function SlotCount(program: Program, tab: Tab): nat {
    if tab.Tech? then program.tech else program.hum
  }

  /** The selections restored from storage: the saved ones when they fit the slot count, blanks otherwise. */
  function Restored(saved: Option<seq<string>>, count: nat): (r: seq<string>)
    ensures |r| == count
    ensures saved.Some? && |saved.value| == count ==> r == saved.value
    ensures !(saved.Some? && |saved.value| == count) ==> forall i :: 0 <= i < count ==> r[i] == ""
  {
    if saved.Some? && |saved.value| == count then saved.value else Blank(count)
  }

  /** The titles chosen at every slot but `i`. */
  function OtherSlots(selected: seq<string>, i: nat): (r: seq<string>)
    requires i < |selected|
    ensures forall t :: t in r <==> exists j :: 0 <= j < |selected| && j != i && selected[j] == t
  {
    var r := selected[..i] + selected[i + 1..];
    assert forall j :: 0 <= j < |selected| && j != i ==> selected[j] == r[if j < i then j else j - 1];
    r
  }

  /**
   * The courses slot `i` offers: those of the form's type whose title is not
   * chosen at another slot, together with the one already chosen here.
   */
  function Available(filtered: seq<Course>, selected: seq<string>, i: nat): (r: seq<Course>)
    requires i < |selected|
    ensures forall c :: c in r <==> c in filtered && (c.title !in OtherSlots(selected, i) || c.title == selected[i])
  {
    var others := OtherSlots(selected, i);
    Lists.Filter(filtered, (c: Course) => c.title !in others || c.title == selected[i])
  }

  /** No title, other than the blank placeholder, is chosen at two slots. */
  predicate Distinct(selected: seq<string>) {
    Lists.DistinctExcept(selected, "")
  }

  /**
   * Choosing the placeholder or any offered course at slot `i` keeps the
   * titles distinct: the per-slot lists are what stops a duplicate.
   */
  lemma ChoosingAvailableKeepsDistinct(filtered: seq<Course>, selected: seq<string>, i: nat, value: string)
    requires i < |selected| && Distinct(selected)
    requires value == "" || exists c :: c in Available(filtered, selected, i) && c.title == value
    ensures Distinct(selected[i := value])
  {
    var s := selected[i := value];
    forall a, b | 0 <= a < |s| && 0 <= b < |s| && a != b && s[a] != ""
      ensures s[a] != s[b]
    {
      if a == i || b == i {
        var other := if a == i then b else a;
        if value != "" {
          var c :| c in Available(filtered, selected, i) && c.title == value;
          assert selected[other] in OtherSlots(selected, i);
        }
      }
    }
  }

  /** Without the per-slot lists a duplicate could be chosen: two slots, one title. */
  lemma FreeChoiceCanDuplicate()
    ensures Distinct(["Art", ""]) && !Distinct(["Art", ""][1 := "Art"])
  {
    assert ["Art", ""][1 := "Art"][0] == ["Art", ""][1 := "Art"][1];
  }

  class Form {
    const tab: Tab
    var filtered: seq<Course>
    var priorityCount: nat
    var selected: seq<string>
    var error: Option<string>
    var loading: bool
    /** The browser's localStorage entries this form writes, as parsed arrays. */
    var storage: map<string, seq<string>>

    predicate Valid()
      reads this
    {
      |selected| == priorityCount
    }

    constructor (tab: Tab, storage: map<string, seq<string>>)
      ensures Valid()
      ensures this.tab == tab && this.storage == storage
      ensures filtered == [] && priorityCount == 0 && selected == [] && error == None && loading
    {
      this.tab := tab;
      this.storage := storage;
      filtered := [];
      priorityCount := 0;
      selected := [];
      error := None;
      loading := true;
    }

    /**
     * The initialising effect. `loaded` is the outcome of fetching the
     * courses and the program together, the program `None` when the lookup
     * finds none (null). When the fetch fails, or when reading the slot
     * count from a null program throws after the offered courses were
     * already set, the error is the thrown error's `message`, or the default.
     */
    method Initialize(loaded: Option<(seq<Course>, Option<Program>)>, message: string)
      requires Valid()
      modifies this
      ensures Valid() && !loading && storage == old(storage)
      ensures (loaded.None? || loaded.value.1.None?) ==>
        && error == Some(if message != "" then message else LoadFailedMessage)
        && priorityCount == old(priorityCount) && selected == old(selected)
      ensures loaded.None? ==> filtered == old(filtered)
      ensures loaded.Some? ==> filtered == OfType(loaded.value.0, tab)
      ensures loaded.Some? && loaded.value.1.Some? ==>
        && error == old(error)
        && priorityCount == SlotCount(loaded.value.1.value, tab)
        && selected == Restored(if StorageKey(tab) in storage then Some(storage[StorageKey(tab)]) else None, priorityCount)
    {
      loading := true;
      if loaded.None? {
        error := Some(if message != "" then message else LoadFailedMessage);
      } else {
        var (courses, found) := loaded.value;
        filtered := OfType(courses, tab);
        if found.None? {
          error := Some(if message != "" then message else LoadFailedMessage);
        } else {
          var count := SlotCount(found.value, tab);
          priorityCount := count;
          var key := StorageKey(tab);
          if key in storage {
            var parsed := storage[key];
            if |parsed| == count {
              selected := parsed;
            } else {
              selected := Blank(count);
            }
          } else {
            selected := Blank(count);
          }
        }
      }
      loading := false;
    }

    /** `handleChange(index, value)`: only slot `index` changes, and the array is saved. */
    method HandleChange(index: nat, value: string)
      requires Valid() && index < priorityCount
      modifies this
      ensures Valid()
      ensures selected == old(selected)[index := value]
      ensures storage == old(storage)[StorageKey(tab) := selected]
      ensures filtered == old(filtered) && priorityCount == old(priorityCount) && error == old(error) && loading == old(loading)
    {
      var updated := selected[index := value];
      selected := updated;
      storage := storage[StorageKey(tab) := updated];
    }

    /** `handleClear`: blank slots, the saved array removed, and `onClear(type)` when given. */
    method HandleClear(hasOnClear: bool) returns (cleared: Option<Tab>)
      requires Valid()
      modifies this
      ensures Valid()
      ensures |selected| == priorityCount && forall i :: 0 <= i < |selected| ==> selected[i] == ""
      ensures StorageKey(tab) !in storage && storage == old(storage) - {StorageKey(tab)}
      ensures cleared == if hasOnClear then Some(tab) else None
      ensures filtered == old(filtered) && priorityCount == old(priorityCount) && error == old(error) && loading == old(loading)
    {
      selected := Blank(priorityCount);
      storage := storage - {StorageKey(tab)};
      cleared := if hasOnClear then Some(tab) else None;
    }

    /** The form's submit: hands the current selections and the form's type to the parent. */
    method Submit() returns (courses: seq<string>, kind: Tab)
      ensures courses == selected && kind == tab
    {
      courses, kind := selected, tab;
    }
  }

  /** A cleared form has distinct selections: every slot holds the placeholder. */
  lemma BlankIsDistinct(n: nat)
    ensures Distinct(Blank(n))
  {
  }

  /** What a change saves is what a later initialisation restores. */
  lemma SavedChangeIsRestored(selected: seq<string>, index: nat, value: string, storage: map<string, seq<string>>, tab: Tab)
    requires index < |selected|
    ensures var saved := storage[StorageKey(tab) := selected[index := value]];
      Restored(Some(saved[StorageKey(tab)]), |selected|) == selected[index := value]
  {
  }
}
