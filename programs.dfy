/**
 * The admin program list hook (frontend/src/hooks/usePrograms.js): the list of
 * student groups with their tech and hum priority counts, the program form,
 * and the add, edit and delete handlers. Database calls are outcomes passed in.
 */
module Programs {
  import opened Wrappers
  import opened Text
  import Lists

  /** A `groups_electives` row. */
  datatype Program = Program(id: Option<int>, studentGroup: string, tech: int, hum: int)

  /** A form field's value: text typed into an input, or a number copied from a record. */
  datatype Value = Str(s: string) | Num(n: int)

  /** The form object: field name to value; an absent name reads as `undefined`. */
  type ProgramData = map<string, Value>

  const ShortNameField := "shortName"
  const TechCountField := "techCount"
  const HumCountField := "humCount"
  const IdField := "id"

  /** `initialProgram`. */
  const InitialProgram: ProgramData := map[ShortNameField := Str(""), TechCountField := Num(0), HumCountField := Num(0)]

  /** JavaScript truthiness of a field: present, and neither "" nor 0. */
  predicate Truthy(d: ProgramData, name: string) {
    name in d && match d[name]
      case Str(s) => s != ""
      case Num(n) => n != 0
  }

  /** `String(n)` for an integer. */
  function IntToString(n: int): string {
    if n >= 0 then NatToString(n) else ['-'] + NatToString(-n)
  }

  /** The text `parseInt` sees: `String(value)`, "undefined" for an absent field. */
  function FieldText(d: ProgramData, name: string): string {
    if name !in d then "undefined"
    else match d[name]
      case Num(n) => IntToString(n)
      case Str(s) => s
  }

  /** `parseInt(programData[name], 10)`; `None` is NaN. A number the form holds parses back to itself. */
  function ParseCount(d: ProgramData, name: string): (r: Option<int>)
    ensures r == ParseInt(FieldText(d, name))
    ensures name in d && d[name].Num? ==> r == Some(d[name].n)
    ensures name !in d ==> r == None
  {
    if name !in d then
      assert DigitPrefix(SkipSign(TrimStart("undefined", IsJsWhitespace))) == [] by {
        assert !IsJsWhitespace('u') && !IsDigit('u');
      }
      None
    else match d[name]
      case Num(n) =>
        ParseIntOfIntToString(n);
        Some(n)
      case Str(s) => ParseInt(s)
  }

  /** `parseInt(String(n), 10) == n` for every integer `n`. */
  lemma ParseIntOfIntToString(n: int)
    ensures ParseInt(IntToString(n)) == Some(n)
  {
    if n >= 0 {
      ParseIntOfNatToString(n);
    } else {
      ParseIntOfNegativeToString(n);
    }
  }

  /** A negative number renders as a minus sign before its magnitude, which parses back to the number. */
  lemma ParseIntOfNegativeToString(n: int)
    requires n < 0
    ensures ParseInt(IntToString(n)) == Some(n)
  {
    var m: nat := -n;
    var s := IntToString(n);
    assert s[1..] == NatToString(m);
    assert DigitsValue(s[1..]) == m by {
      DigitsValueOfNatToString(m);
    }
    ParseIntOfNegative(s);
  }

  /** The record sent to the database: `student_group` (`None` when the field is absent), `tech` and `hum` (`None` for NaN). */
  datatype Payload = Payload(studentGroup: Option<Value>, tech: Option<int>, hum: Option<int>)

  function MakePayload(d: ProgramData): (p: Payload)
    ensures p.studentGroup == (if ShortNameField in d then Some(d[ShortNameField]) else None)
    ensures p.tech == ParseInt(FieldText(d, TechCountField)) && p.hum == ParseInt(FieldText(d, HumCountField))
    ensures TechCountField in d && d[TechCountField].Num? ==> p.tech == Some(d[TechCountField].n)
    ensures HumCountField in d && d[HumCountField].Num? ==> p.hum == Some(d[HumCountField].n)
  {
    Payload(if ShortNameField in d then Some(d[ShortNameField]) else None,
            ParseCount(d, TechCountField), ParseCount(d, HumCountField))
  }

  /** What the delete and edit buttons pass: an id or a student group. */
  datatype ProgramKey = ById(n: int) | ByGroup(s: string)

  predicate Matches(p: Program, key: ProgramKey) {
    match key
    case ById(n) => p.id == Some(n)
    case ByGroup(s) => p.studentGroup == s
  }

  /** `programs.find(p => p.id === key || p.student_group === key)`. */
  function FindProgram(programs: seq<Program>, key: ProgramKey): (r: Option<Program>)
    ensures r.Some? ==> r.value in programs && Matches(r.value, key)
    ensures r.None? ==> forall i :: 0 <= i < |programs| ==> !Matches(programs[i], key)
  {
    Lists.Find(programs, (p: Program) => Matches(p, key))
  }

  /** The form `startEditingProgram` fills from a record: its group, counts and id. */
  function EditForm(p: Program): (d: ProgramData)
    ensures d.Keys == {ShortNameField, TechCountField, HumCountField} + (if p.id.Some? then {IdField} else {})
  {
    var d := map[ShortNameField := Str(p.studentGroup), TechCountField := Num(p.tech), HumCountField := Num(p.hum)];
    if p.id.Some? then d[IdField := Num(p.id.value)] else d
  }

  /** A form whose counts are numbers sends exactly those numbers. */
  lemma PayloadOfNumbers(d: ProgramData, group: string, tech: int, hum: int)
    requires ShortNameField in d && d[ShortNameField] == Str(group)
    requires TechCountField in d && d[TechCountField] == Num(tech)
    requires HumCountField in d && d[HumCountField] == Num(hum)
    ensures MakePayload(d) == Payload(Some(Str(group)), Some(tech), Some(hum))
  {
    var r := MakePayload(d);
    assert r.studentGroup == Some(Str(group)) && r.tech == Some(tech) && r.hum == Some(hum);
  }

  /** Editing a record and saving it unchanged sends back the record's own group and counts, under its id. */
  lemma EditingRoundTrip(p: Program)
    ensures MakePayload(EditForm(p)) == Payload(Some(Str(p.studentGroup)), Some(p.tech), Some(p.hum))
    ensures Truthy(EditForm(p), IdField) <==> p.id.Some? && p.id.value != 0
  {
    var d := EditForm(p);
    assert d[ShortNameField] == Str(p.studentGroup);
    assert d[TechCountField] == Num(p.tech) && d[HumCountField] == Num(p.hum);
    PayloadOfNumbers(d, p.studentGroup, p.tech, p.hum);
  }

  /** `prev.map(p => p.id === updated.id ? updated : p)`. */
  function ReplaceById(programs: seq<Program>, updated: Program): (r: seq<Program>)
    ensures |r| == |programs|
    ensures forall i :: 0 <= i < |programs| ==> r[i] == if programs[i].id == updated.id then updated else programs[i]
  {
    Lists.ReplaceWhere(programs, (p: Program) => p.id == updated.id, updated)
  }

  /** `prev.filter(p => p.id !== id)`. */
  function RemoveById(programs: seq<Program>, id: Option<int>): (r: seq<Program>)
    ensures forall p :: p in r <==> p in programs && p.id != id
  {
    Lists.Filter(programs, (p: Program) => p.id != id)
  }

  /** What the database returned for an edit or an insert. */
  datatype Saved = Failed(message: string) | Stored(program: Program)

  class ProgramsState {
    var programs: seq<Program>
    var programData: ProgramData
    var showModal: bool
    var error: Option<string>

    constructor ()
      ensures programs == [] && programData == InitialProgram && !showModal && error == None
    {
      programs := [];
      programData := InitialProgram;
      showModal := false;
      error := None;
    }

    /** `loadPrograms`: the rows (`data || []`), or an empty list when the query fails. */
    method LoadPrograms(result: Option<Option<seq<Program>>>)
      modifies this
      ensures programs == if result.Some? then result.value.GetOr([]) else []
      ensures programData == old(programData) && showModal == old(showModal) && error == old(error)
    {
      programs := if result.Some? then result.value.GetOr([]) else [];
    }

    /** `handleProgramChange({name, value})`: the named field takes the value, whatever the name; no other field changes. */
    method HandleProgramChange(name: string, value: Value)
      modifies this
      ensures name in programData && programData[name] == value
      ensures forall other :: other != name ==> (other in programData <==> other in old(programData))
      ensures forall other :: other != name && other in programData ==> programData[other] == old(programData)[other]
      ensures programs == old(programs) && showModal == old(showModal) && error == old(error)
    {
      programData := programData[name := value];
    }

    /**
     * `handleDeleteProgram`: nothing happens when no program matches;
     * otherwise every program with the found one's id leaves the list (the
     * database call's result is not consulted).
     */
    method HandleDeleteProgram(key: ProgramKey)
      modifies this
      ensures var found := FindProgram(old(programs), key);
        && (found.None? ==> programs == old(programs))
        && (found.Some? ==> programs == RemoveById(old(programs), found.value.id))
      ensures programData == old(programData) && showModal == old(showModal) && error == old(error)
    {
      var found := FindProgram(programs, key);
      if found.None? {
        return;
      }
      programs := RemoveById(programs, found.value.id);
    }

    /**
     * `handleProgramSubmit`: the payload is built from the form; with an id
     * the saved record replaces every program of that id, without one the
     * stored record is appended. Success resets and hides the form and
     * clears the error; failure only sets the error.
     */
    method HandleProgramSubmit(saved: Saved) returns (sent: Payload)
      modifies this
      ensures sent == MakePayload(old(programData))
      ensures saved.Failed? ==>
        error == Some(saved.message) && programs == old(programs) && programData == old(programData) && showModal == old(showModal)
      ensures saved.Stored? ==>
        && programs == (if Truthy(old(programData), IdField)
                        then ReplaceById(old(programs), saved.program)
                        else old(programs) + [saved.program])
        && programData == InitialProgram && !showModal && error == None
    {
      sent := MakePayload(programData);
      ApplySaved(saved);
    }

    /** The state change after the save call: the list and the form on success, the error on failure. */
    method ApplySaved(saved: Saved)
      modifies this
      ensures saved.Failed? ==>
        error == Some(saved.message) && programs == old(programs) && programData == old(programData) && showModal == old(showModal)
      ensures saved.Stored? ==>
        && programs == (if Truthy(old(programData), IdField)
                        then ReplaceById(old(programs), saved.program)
                        else old(programs) + [saved.program])
        && programData == InitialProgram && !showModal && error == None
    {
      if saved.Failed? {
        error := Some(saved.message);
        return;
      }
      programs := if Truthy(programData, IdField) then ReplaceById(programs, saved.program) else programs + [saved.program];
      programData := InitialProgram;
      showModal := false;
      error := None;
    }

    /** `handleProgramCancel`. */
    method HandleProgramCancel()
      modifies this
      ensures programData == InitialProgram && !showModal && error == None && programs == old(programs)
    {
      programData := InitialProgram;
      showModal := false;
      error := None;
    }

    /** `startEditingProgram`: the found record, id included, in the form and the modal open; nothing when none matches. */
    method StartEditingProgram(key: ProgramKey)
      modifies this
      ensures var found := FindProgram(old(programs), key);
        && (found.None? ==> programData == old(programData) && showModal == old(showModal))
        && (found.Some? ==>
              programData == EditForm(found.value) && showModal)
      ensures programs == old(programs) && error == old(error)
    {
      var found := FindProgram(programs, key);
      if found.None? {
        return;
      }
      programData := EditForm(found.value);
      showModal := true;
    }
  }
}
