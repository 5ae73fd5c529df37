/**
 * The older voting form (frontend/src/components/VotingForm.jsx): one priority
 * per course, a set of priorities in use that disables taken options, and
 * the submit checks for unique and complete priorities.
 */
module VotingForm {
  import opened Wrappers
  import opened Text
  import Lists

  /** One `priorities[courseId] = value` entry; the object keeps one entry per course id. */
  datatype Entry = Entry(courseId: string, priority: string)

  const UniqueMessage := "Please assign unique priorities to each course"
  const AllMessage := "Please assign priorities to all courses"

  /** The entry keys are distinct, as an object's keys are. */
  predicate KeysUnique(entries: seq<Entry>) {
    forall i, j :: 0 <= i < |entries| && 0 <= j < |entries| && i != j ==> entries[i].courseId != entries[j].courseId
  }

  /** Where the course's entry is, if it has one. */
  function IndexOf(entries: seq<Entry>, courseId: string): (r: Option<nat>)
    ensures r.Some? ==> r.value < |entries| && entries[r.value].courseId == courseId
    ensures r.None? ==> forall i :: 0 <= i < |entries| ==> entries[i].courseId != courseId
  {
    Lists.FirstIndex(entries, (e: Entry) => e.courseId == courseId)
  }

  /** `priorities[courseId]`, with a missing entry read as "". */
  function Lookup(entries: seq<Entry>, courseId: string): string {
    match IndexOf(entries, courseId)
    case Some(k) => entries[k].priority
    case None => ""
  }

  /** `{ ...priorities, [courseId]: value }`: an existing entry is overwritten in place, a new one appended. */
  function Assign(entries: seq<Entry>, courseId: string, value: string): seq<Entry> {
    match IndexOf(entries, courseId)
    case Some(k) => entries[k := Entry(courseId, value)]
    case None => entries + [Entry(courseId, value)]
  }

  /** Assigning keeps one entry per course, gives the course `value`, and leaves every other course's entry alone. */
  lemma AssignMeaning(entries: seq<Entry>, courseId: string, value: string)
    requires KeysUnique(entries)
    ensures var r := Assign(entries, courseId, value);
      && KeysUnique(r)
      && Lookup(r, courseId) == value
      && (forall e :: e in r && e.courseId != courseId <==> e in entries && e.courseId != courseId)
  {
    var r := Assign(entries, courseId, value);
    match IndexOf(entries, courseId)
    case Some(k) =>
      assert r[k].courseId == courseId;
      assert forall i :: 0 <= i < |r| && i != k ==> r[i] == entries[i] && r[i].courseId != courseId;
      assert IndexOf(r, courseId) == Some(k);
      forall e | e in entries && e.courseId != courseId
        ensures e in r
      {
        var i :| 0 <= i < |entries| && entries[i] == e;
        assert r[i] == e;
      }
    case None =>
      assert r[|entries|].courseId == courseId;
      assert forall i :: 0 <= i < |entries| ==> r[i] == entries[i];
      assert IndexOf(r, courseId) == Some(|entries|);
  }

  /** `Object.values(priorities)`. */
  function Values(entries: seq<Entry>): (r: seq<string>)
    ensures |r| == |entries| && forall i :: 0 <= i < |r| ==> r[i] == entries[i].priority
  {
    seq(|entries|, i requires 0 <= i < |entries| => entries[i].priority)
  }

  /** `values.filter(p => p)`. */
  function NonEmpty(values: seq<string>): (r: seq<string>)
    ensures forall x :: x in r <==> x in values && x != ""
    ensures |r| <= |values|
  {
    if values == [] then []
    else (if values[0] != "" then [values[0]] else []) + NonEmpty(values[1..])
  }

  /** `new Set(values)`. */
  function SetOf(values: seq<string>): set<string> {
    set x | x in values
  }

  /** No value occurs twice. */
  predicate AllDifferent(values: seq<string>) {
    forall i, j :: 0 <= i < |values| && 0 <= j < |values| && i != j ==> values[i] != values[j]
  }

  /** The set is never larger than the list, and as large exactly when no value repeats. */
  lemma {:induction false} SetSizeDetectsDuplicates(values: seq<string>)
    ensures |SetOf(values)| <= |values|
    ensures |SetOf(values)| == |values| <==> AllDifferent(values)
  {
    if values != [] {
      var h, t := values[0], values[1..];
      SetSizeDetectsDuplicates(t);
      assert SetOf(values) == SetOf(t) + {h} by {
        assert forall x :: x in values <==> x == h || x in t;
      }
      if h in t {
        var k :| 0 <= k < |t| && t[k] == h;
        assert values[k + 1] == values[0];
      } else if AllDifferent(t) {
        forall i, j | 0 <= i < |values| && 0 <= j < |values| && i != j
          ensures values[i] != values[j]
        {
          if i > 0 && j > 0 {
            assert values[i] == t[i - 1] && values[j] == t[j - 1];
          }
        }
      } else {
        var i, j :| 0 <= i < |t| && 0 <= j < |t| && i != j && t[i] == t[j];
        assert values[i + 1] == values[j + 1];
      }
    }
  }

  /** A list with a head is all different exactly when its tail is and the head is not in the tail. */
  lemma AllDifferentCons(h: string, t: seq<string>)
    ensures AllDifferent([h] + t) <==> AllDifferent(t) && h !in t
  {
    var r := [h] + t;
    if AllDifferent(t) && h !in t {
      forall i, j | 0 <= i < |r| && 0 <= j < |r| && i != j
        ensures r[i] != r[j]
      {
        if i > 0 && j > 0 {
          assert r[i] == t[i - 1] && r[j] == t[j - 1];
        }
      }
    }
    if AllDifferent(r) {
      forall i, j | 0 <= i < |t| && 0 <= j < |t| && i != j
        ensures t[i] != t[j]
      {
        assert r[i + 1] == t[i] && r[j + 1] == t[j];
      }
      forall k | 0 <= k < |t|
        ensures t[k] != h
      {
        assert r[0] == h && r[k + 1] == t[k];
      }
    }
  }

  /** The same step for distinctness among the non-blank values. */
  lemma DistinctExceptCons(h: string, t: seq<string>)
    ensures Lists.DistinctExcept([h] + t, "") <==> Lists.DistinctExcept(t, "") && (h == "" || h !in t)
  {
    var r := [h] + t;
    if Lists.DistinctExcept(t, "") && (h == "" || h !in t) {
      forall i, j | 0 <= i < |r| && 0 <= j < |r| && i != j && r[i] != ""
        ensures r[i] != r[j]
      {
        if i > 0 && j > 0 {
          assert r[i] == t[i - 1] && r[j] == t[j - 1];
        } else if i == 0 {
          assert r[j] in t;
        } else {
          assert r[i] in t;
        }
      }
    }
    if Lists.DistinctExcept(r, "") {
      forall i, j | 0 <= i < |t| && 0 <= j < |t| && i != j && t[i] != ""
        ensures t[i] != t[j]
      {
        assert r[i + 1] == t[i] && r[j + 1] == t[j];
      }
      if h != "" {
        forall k | 0 <= k < |t|
          ensures t[k] != h
        {
          assert r[0] == h && r[k + 1] == t[k];
        }
      }
    }
  }

  /** The non-empty values are all different exactly when no non-empty value is given twice. */
  lemma {:induction false} NonEmptyAllDifferent(values: seq<string>)
    ensures AllDifferent(NonEmpty(values)) <==> Lists.DistinctExcept(values, "")
  {
    if values != [] {
      var h, t := values[0], values[1..];
      NonEmptyAllDifferent(t);
      assert values == [h] + t;
      DistinctExceptCons(h, t);
      if h != "" {
        assert NonEmpty(values) == [h] + NonEmpty(t);
        AllDifferentCons(h, NonEmpty(t));
      } else {
        assert NonEmpty(values) == NonEmpty(t);
      }
    }
  }

  /** Why the form's submit refuses, or what it hands on. */
  datatype Outcome = DuplicateAlert | IncompleteAlert | Submitted(priorities: seq<Entry>)

  /**
   * `handleSubmit`: duplicates among the non-empty priorities are refused
   * first; then anything but one non-empty priority per course.
   */
  function Submit(entries: seq<Entry>, courseCount: nat): (o: Outcome)
    ensures o.DuplicateAlert? <==> !Lists.DistinctExcept(Values(entries), "")
    ensures o.Submitted? <==>
      Lists.DistinctExcept(Values(entries), "") && |entries| == courseCount && "" !in Values(entries)
    ensures o.Submitted? ==> o.priorities == entries
  {
    var values := Values(entries);
    var filled := NonEmpty(values);
    SetSizeDetectsDuplicates(filled);
    NonEmptyAllDifferent(values);
    if |SetOf(filled)| != |filled| then DuplicateAlert
    else if |values| != courseCount || "" in values then IncompleteAlert
    else Submitted(entries)
  }

  /** The priorities in use: the non-empty values. */
  function Used(entries: seq<Entry>): set<string> {
    set i | 0 <= i < |entries| && entries[i].priority != "" :: entries[i].priority
  }

  /** The used-priority set after a course's value changes from `previous` to `value`. */
  function UsedAfter(used: set<string>, previous: string, value: string): (r: set<string>)
    ensures forall p :: p in r <==> (p == value && value != "") || (p in used && (p != previous || previous == ""))
  {
    var removed := if previous != "" then used - {previous} else used;
    if value != "" then removed + {value} else removed
  }

  /** `isPriorityAvailable(priority)` for the numeric options 1..n the form offers. */
  predicate IsPriorityAvailable(used: set<string>, priority: nat) {
    NatToString(priority) !in used
  }

  /** The option for `priority` is enabled for a course whose current value is `current`. */
  predicate Enabled(used: set<string>, priority: nat, current: string) {
    IsPriorityAvailable(used, priority) || current == NatToString(priority)
  }

  /** The used set holds exactly the non-empty priorities, and none is given to two courses. */
  predicate InSync(entries: seq<Entry>, used: set<string>) {
    && KeysUnique(entries)
    && used == Used(entries)
    && Lists.DistinctExcept(Values(entries), "")
  }

  /**
   * Picking "Clean" or an enabled option keeps the used set equal to the
   * non-empty priorities and keeps them distinct; so a form driven only
   * through its enabled options never reaches the duplicate alert.
   */
  lemma ChangeKeepsInSync(entries: seq<Entry>, used: set<string>, courseId: string, value: string, option: nat)
    requires InSync(entries, used)
    requires value == "" || (value == NatToString(option) && Enabled(used, option, Lookup(entries, courseId)))
    ensures InSync(Assign(entries, courseId, value), UsedAfter(used, Lookup(entries, courseId), value))
  {
    AssignMeaning(entries, courseId, value);
    match IndexOf(entries, courseId)
    case Some(k) =>
      ReplaceKeepsDistinct(entries, k, value);
      ReplaceUsed(entries, k, value);
    case None =>
      assert value != "" ==> value !in used by {
        assert NatToString(option) != "";
      }
      AppendKeepsDistinct(entries, Entry(courseId, value));
      AppendUsed(entries, Entry(courseId, value));
  }

  /** Overwriting entry `k` with a blank, its own value or an unused value keeps the priorities distinct. */
  lemma ReplaceKeepsDistinct(entries: seq<Entry>, k: nat, value: string)
    requires k < |entries| && Lists.DistinctExcept(Values(entries), "")
    requires value == "" || value == entries[k].priority || value !in Used(entries)
    ensures Lists.DistinctExcept(Values(entries[k := Entry(entries[k].courseId, value)]), "")
  {
    var r := entries[k := Entry(entries[k].courseId, value)];
    var vs, rs := Values(entries), Values(r);
    forall i, j | 0 <= i < |rs| && 0 <= j < |rs| && i != j && rs[i] != ""
      ensures rs[i] != rs[j]
    {
      if i == k {
        if vs[j] != "" {
          assert entries[j].priority in Used(entries);
        }
      } else if j == k {
        assert entries[i].priority in Used(entries);
      }
    }
  }

  /** Overwriting entry `k` moves its old value out of the used set and the new one in. */
  lemma ReplaceUsed(entries: seq<Entry>, k: nat, value: string)
    requires k < |entries| && Lists.DistinctExcept(Values(entries), "")
    ensures Used(entries[k := Entry(entries[k].courseId, value)]) == UsedAfter(Used(entries), entries[k].priority, value)
  {
    var r := entries[k := Entry(entries[k].courseId, value)];
    var previous := entries[k].priority;
    var vs := Values(entries);
    var after := UsedAfter(Used(entries), previous, value);
    forall p ensures p in Used(r) <==> p in after {
      if p in Used(r) {
        var i :| 0 <= i < |r| && r[i].priority != "" && r[i].priority == p;
        if i != k {
          assert entries[i].priority in Used(entries);
          assert vs[i] != vs[k];
        }
      }
      if p in after {
        if p == value && value != "" {
          assert r[k].priority == p;
        } else {
          var i :| 0 <= i < |entries| && entries[i].priority != "" && entries[i].priority == p;
          assert r[i].priority == p;
        }
      }
    }
  }

  /** Appending a blank or unused value keeps the priorities distinct. */
  lemma AppendKeepsDistinct(entries: seq<Entry>, e: Entry)
    requires Lists.DistinctExcept(Values(entries), "")
    requires e.priority == "" || e.priority !in Used(entries)
    ensures Lists.DistinctExcept(Values(entries + [e]), "")
  {
    var r := entries + [e];
    var vs, rs := Values(entries), Values(r);
    forall i, j | 0 <= i < |rs| && 0 <= j < |rs| && i != j && rs[i] != ""
      ensures rs[i] != rs[j]
    {
      if i == |entries| {
        if vs[j] != "" {
          assert entries[j].priority in Used(entries);
        }
      } else if j == |entries| {
        assert entries[i].priority in Used(entries);
      } else {
        assert rs[i] == vs[i] && rs[j] == vs[j];
      }
    }
  }

  /** Appending an entry adds its value, when non-empty, to the used set. */
  lemma AppendUsed(entries: seq<Entry>, e: Entry)
    ensures Used(entries + [e]) == UsedAfter(Used(entries), "", e.priority)
  {
    var r := entries + [e];
    forall p ensures p in Used(r) <==> p in UsedAfter(Used(entries), "", e.priority) {
      if p in Used(r) {
        var i :| 0 <= i < |r| && r[i].priority != "" && r[i].priority == p;
        if i < |entries| {
          assert entries[i].priority == p;
        }
      }
      if p in Used(entries) {
        var i :| 0 <= i < |entries| && entries[i].priority != "" && entries[i].priority == p;
        assert r[i].priority == p;
      }
      if p == e.priority && p != "" {
        assert r[|entries|].priority == p;
      }
    }
  }

  /** A form kept in step never hits the duplicate alert on submit. */
  lemma InSyncNeverDuplicate(entries: seq<Entry>, used: set<string>, courseCount: nat)
    requires InSync(entries, used)
    ensures !Submit(entries, courseCount).DuplicateAlert?
  {
  }

  /** The form's text fields. */
  datatype Field = Name | Email | Comments

  class Form {
    var name: string
    var email: string
    var comments: string
    var priorities: seq<Entry>
    var used: set<string>
    var submitted: bool

    predicate Valid()
      reads this
    {
      KeysUnique(priorities)
    }

    constructor ()
      ensures Valid() && InSync(priorities, used)
      ensures name == "" && email == "" && comments == "" && priorities == [] && used == {} && !submitted
    {
      name, email, comments := "", "", "";
      priorities, used := [], {};
      submitted := false;
    }

    /** `handleChange`: only the named text field changes. */
    method HandleChange(field: Field, value: string)
      modifies this
      ensures name == (if field.Name? then value else old(name))
      ensures email == (if field.Email? then value else old(email))
      ensures comments == (if field.Comments? then value else old(comments))
      ensures priorities == old(priorities) && used == old(used) && submitted == old(submitted)
    {
      match field
      case Name => name := value;
      case Email => email := value;
      case Comments => comments := value;
    }

    /** `handlePriorityChange`: the old value leaves the used set, the new one joins it, and only this course's entry changes. */
    method HandlePriorityChange(courseId: string, value: string)
      requires Valid()
      modifies this
      ensures Valid()
      ensures used == UsedAfter(old(used), Lookup(old(priorities), courseId), value)
      ensures priorities == Assign(old(priorities), courseId, value)
      ensures name == old(name) && email == old(email) && comments == old(comments) && submitted == old(submitted)
    {
      AssignMeaning(priorities, courseId, value);
      var previous := Lookup(priorities, courseId);
      var newUsed := used;
      if previous != "" {
        newUsed := newUsed - {previous};
      }
      if value != "" {
        newUsed := newUsed + {value};
      }
      used := newUsed;
      priorities := Assign(priorities, courseId, value);
    }

    /** `handleSubmit`: the alert to show, or the form data handed to `onSubmit` and `submitted` set. */
    method HandleSubmit(courseCount: nat) returns (outcome: Outcome)
      modifies this
      ensures outcome == Submit(priorities, courseCount)
      ensures submitted == (outcome.Submitted? || old(submitted))
      ensures priorities == old(priorities) && used == old(used)
      ensures name == old(name) && email == old(email) && comments == old(comments)
    {
      outcome := Submit(priorities, courseCount);
      if outcome.Submitted? {
        submitted := true;
      }
    }
  }
}
