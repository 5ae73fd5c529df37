/**
 * Submission of a student's course priorities (frontend/src/hooks/useFormSubmit.js):
 * the completeness check, the `tech1..`/`hum1..` fields sent to the
 * database, and the local list of preferences, one entry per email.
 * The database write is an outcome passed in.
 */
module FormSubmit {
  import opened Wrappers
  import opened Text
  import Lists

  datatype Tab = Tech | Hum {
    function Name(): (n: string)
      ensures n == "tech" || n == "hum"
    {
      if Tech? then "tech" else "hum"
    }
  }

  /** The number of priorities a student gives per tab. */
  datatype Limits = Limits(tech: nat, hum: nat) {
    function Of(tab: Tab): nat {
      if tab.Tech? then tech else hum
    }
  }

  const DefaultLimits := Limits(5, 5)

  const FillAllMessage := "Please fill all priority fields"
  const SuccessMessage := "Priorities submitted successfully!"
  const FailureMessage := "Failed to submit priorities"

  /** A submission is accepted when it has exactly `expected` entries, none of them empty. */
  predicate Complete(selected: seq<string>, expected: nat) {
    |selected| == expected && forall i :: 0 <= i < |selected| ==> selected[i] != ""
  }

  /** The database column for priority `i` (counted from 1) on a tab: `tech3`, `hum1`. */
  function Key(tab: Tab, i: nat): string {
    tab.Name() + NatToString(i)
  }

  /** The columns `Key(tab, 1)` .. `Key(tab, n)`. */
  function KeysUpTo(tab: Tab, n: nat): set<string> {
    if n == 0 then {} else KeysUpTo(tab, n - 1) + {Key(tab, n)}
  }

  /** Two columns of one tab are equal only for the same priority. */
  lemma KeyInjective(tab: Tab, i: nat, j: nat)
    requires Key(tab, i) == Key(tab, j)
    ensures i == j
  {
    var n := |tab.Name()|;
    assert NatToString(i) == Key(tab, i)[n..];
    assert NatToString(j) == Key(tab, j)[n..];
    NatToStringInjective(i, j);
  }

  /** `KeysUpTo(tab, n)` has exactly the priorities 1..n. */
  lemma {:induction false} KeysUpToMembers(tab: Tab, n: nat, i: nat)
    ensures Key(tab, i) in KeysUpTo(tab, n) <==> 1 <= i <= n
  {
    if n > 0 {
      KeysUpToMembers(tab, n - 1, i);
      if Key(tab, i) == Key(tab, n) {
        KeyInjective(tab, i, n);
      }
    }
  }

  /** There are exactly `n` columns up to priority `n`. */
  lemma {:induction false} KeysUpToSize(tab: Tab, n: nat)
    ensures |KeysUpTo(tab, n)| == n
  {
    if n > 0 {
      KeysUpToSize(tab, n - 1);
      KeysUpToMembers(tab, n - 1, n);
    }
  }

  /** `fields` holds priorities 1..i of `selected` under their columns, and nothing else. */
  predicate FieldsUpTo(tab: Tab, selected: seq<string>, fields: map<string, string>, i: nat) {
    && i <= |selected|
    && fields.Keys == KeysUpTo(tab, i)
    && forall j :: 1 <= j <= i ==> Key(tab, j) in fields && fields[Key(tab, j)] == selected[j - 1]
  }

  /** Writing priority i + 1 extends the columns by one. */
  lemma FieldsStep(tab: Tab, selected: seq<string>, fields: map<string, string>, i: nat)
    requires i < |selected| && FieldsUpTo(tab, selected, fields, i)
    ensures FieldsUpTo(tab, selected, fields[Key(tab, i + 1) := selected[i]], i + 1)
  {
    var k := Key(tab, i + 1);
    var f := fields[k := selected[i]];
    assert KeysUpTo(tab, i + 1) == fields.Keys + {k};
    forall j | 1 <= j <= i + 1
      ensures Key(tab, j) in f && f[Key(tab, j)] == selected[j - 1]
    {
      if j <= i && Key(tab, j) == k {
        KeyInjective(tab, j, i + 1);
      }
    }
  }

  /**
   * The `forEach` that fills `updateFields`: one column per selected course,
   * priority i + 1 holding course i (`course || ""` is the course itself for
   * a string), and no other column.
   */
  method BuildUpdateFields(tab: Tab, selected: seq<string>) returns (fields: map<string, string>)
    ensures |fields| == |selected|
    ensures fields.Keys == KeysUpTo(tab, |selected|)
    ensures forall j :: 1 <= j <= |selected| ==> Key(tab, j) in fields && fields[Key(tab, j)] == selected[j - 1]
  {
    fields := map[];
    for i := 0 to |selected|
      invariant FieldsUpTo(tab, selected, fields, i)
    {
      FieldsStep(tab, selected, fields, i);
      fields := fields[Key(tab, i + 1) := selected[i]];
    }
    KeysUpToSize(tab, |selected|);
    assert |fields.Keys| == |selected|;
  }

  /** A student's saved priorities on both tabs. */
  datatype Preference = Preference(email: string, tech: seq<string>, hum: seq<string>) {
    function Get(tab: Tab): seq<string> {
      if tab.Tech? then tech else hum
    }

    /** `{ ...current, [activeTab]: selected }`. */
    function With(tab: Tab, selected: seq<string>): (p: Preference)
      ensures p.email == email && p.Get(tab) == selected
      ensures p.Get(Other(tab)) == Get(Other(tab))
    {
      if tab.Tech? then this.(tech := selected) else this.(hum := selected)
    }
  }

  function Other(tab: Tab): Tab {
    if tab.Tech? then Hum else Tech
  }

  /** `Array(n).fill("")`. */
  function Blank(n: nat): (r: seq<string>)
    ensures |r| == n && forall i :: 0 <= i < n ==> r[i] == ""
  {
    seq(n, _ => "")
  }

  /** The entry being updated: the first one for `email`, or a blank one sized by the limits. */
  function Current(prev: seq<Preference>, email: string, limits: Limits): Preference {
    Lists.Find(prev, (p: Preference) => p.email == email).GetOr(Preference(email, Blank(limits.tech), Blank(limits.hum)))
  }

  /** The entries of other students, in their order. */
  function OthersOf(prev: seq<Preference>, email: string): seq<Preference> {
    Lists.Filter(prev, (p: Preference) => p.email != email)
  }

  /** The state update after a successful write: other students' entries, then the updated one. */
  function Upsert(prev: seq<Preference>, email: string, tab: Tab, selected: seq<string>, limits: Limits): seq<Preference> {
    OthersOf(prev, email) + [Current(prev, email, limits).With(tab, selected)]
  }

  /**
   * After the update there is exactly one entry for `email`, at the end,
   * holding `selected` on the submitted tab and keeping the other tab of
   * the earlier entry (blanks sized by the limits for a new student);
   * every other student's entry is kept, and only those.
   */
  lemma UpsertMeaning(prev: seq<Preference>, email: string, tab: Tab, selected: seq<string>, limits: Limits)
    ensures var r := Upsert(prev, email, tab, selected, limits);
      && |r| >= 1
      && r[|r| - 1].email == email
      && r[|r| - 1].Get(tab) == selected
      && (forall i :: 0 <= i < |r| - 1 ==> r[i].email != email && r[i] in prev)
      && (forall p :: p in prev && p.email != email ==> p in r)
      && (forall i :: 0 <= i < |r| && r[i].email == email ==> i == |r| - 1)
      && r[|r| - 1].Get(Other(tab)) ==
           if exists p :: p in prev && p.email == email
           then Current(prev, email, limits).Get(Other(tab))
           else Blank(limits.Of(Other(tab)))
  {
    var r := Upsert(prev, email, tab, selected, limits);
    var others := OthersOf(prev, email);
    assert r[..|r| - 1] == others;
    forall p | p in prev && p.email != email
      ensures p in r
    {
      var i :| 0 <= i < |prev| && prev[i] == p;
      assert p in others;
    }
    if !(exists p :: p in prev && p.email == email) {
      assert Current(prev, email, limits) == Preference(email, Blank(limits.tech), Blank(limits.hum));
    }
  }

  /** Submitting twice for the same student leaves one entry, the latest selection. */
  lemma ResubmitKeepsOneEntry(prev: seq<Preference>, email: string, tab: Tab, a: seq<string>, b: seq<string>, limits: Limits)
    ensures var r := Upsert(Upsert(prev, email, tab, a, limits), email, tab, b, limits);
      && |r| == |Upsert(prev, email, tab, a, limits)|
      && r[|r| - 1].Get(tab) == b
  {
    var r1 := Upsert(prev, email, tab, a, limits);
    var others := OthersOf(prev, email);
    Lists.FilterAll(others, (p: Preference) => p.email != email);
    Lists.FilterAppend(others, [r1[|r1| - 1]], (p: Preference) => p.email != email);
    assert [r1[|r1| - 1]][1..] == [];
    assert OthersOf(r1, email) == others;
  }

  /** The hook's state: the user, the limits loaded for their program, and the local preferences. */
  class Submitter {
    const email: string
    var limits: Limits
    var preferences: seq<Preference>

    constructor (email: string)
      ensures this.email == email && limits == DefaultLimits && preferences == []
    {
      this.email := email;
      limits := DefaultLimits;
      preferences := [];
    }

    /** The limits effect: only for a truthy email whose program is found. */
    method LoadLimits(program: Option<string>, fetched: Limits)
      modifies this
      ensures preferences == old(preferences)
      ensures limits == if email != "" && program.Some? && program.value != "" then fetched else old(limits)
    {
      if email != "" && program.Some? && program.value != "" {
        limits := fetched;
      }
    }

    /**
     * `onSubmit`. An incomplete selection is refused with nothing sent; a
     * failed write leaves the preferences as they were; a successful one
     * applies `Upsert`. `sent` is the field map handed to the database.
     */
    method OnSubmit(selected: seq<string>, tab: Tab, writeSucceeds: bool) returns (sent: Option<map<string, string>>, alert: string)
      modifies this
      ensures limits == old(limits)
      ensures !Complete(selected, limits.Of(tab)) ==>
        sent.None? && alert == FillAllMessage && preferences == old(preferences)
      ensures Complete(selected, limits.Of(tab)) ==>
        && sent.Some?
        && sent.value.Keys == KeysUpTo(tab, |selected|)
        && (forall j :: 1 <= j <= |selected| ==> Key(tab, j) in sent.value && sent.value[Key(tab, j)] == selected[j - 1])
      ensures Complete(selected, limits.Of(tab)) && !writeSucceeds ==>
        alert == FailureMessage && preferences == old(preferences)
      ensures Complete(selected, limits.Of(tab)) && writeSucceeds ==>
        alert == SuccessMessage && preferences == Upsert(old(preferences), email, tab, selected, limits)
    {
      if !Complete(selected, limits.Of(tab)) {
        return None, FillAllMessage;
      }
      var fields := BuildUpdateFields(tab, selected);
      sent := Some(fields);
      if !writeSucceeds {
        alert := FailureMessage;
        return;
      }
      preferences := Upsert(preferences, email, tab, selected, limits);
      alert := SuccessMessage;
    }
  }
}
