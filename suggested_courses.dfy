/**
 * The suggested-course calls (frontend/src/api/function_for_suggested_courses.js)
 * over the two tables they touch, `suggested_courses` and `catalogue`, held
 * as lists of rows. Each database step's outcome is passed in; the model
 * applies the step only when it succeeds, in the order the calls are made.
 */
module SuggestedCourses {
  import opened Wrappers
  import Lists

  /** A JSON value as a row holds it; `JUndefined` is a key the object does not have. */
  datatype Json = JUndefined | JNull | JBool(b: bool) | JNum(n: int) | JStr(s: string) | JArr(items: seq<Json>)

  /** A row, or an object of fields: key to value. */
  type Row = map<string, Json>

  const IdKey := "id"
  const YearsKey := "years"
  const ProgramKey := "program"
  const DeclinedKey := "is_declined"
  const ArchivedKey := "archived"
  const IdRequiredMessage := "Course ID is required"

  /** The fields a row carries over into the catalogue, besides `archived`. */
  const AcceptedKeys: seq<string> := ["title", "description", "teacher", "language", "type", YearsKey, ProgramKey]

  /** `obj[key]`: undefined when the key is absent. */
  function Get(r: Row, key: string): Json {
    if key in r then r[key] else JUndefined
  }

  /** JavaScript truthiness. */
  predicate Truthy(v: Json) {
    match v
    case JUndefined => false
    case JNull => false
    case JBool(b) => b
    case JNum(n) => n != 0
    case JStr(s) => s != ""
    case JArr(_) => true
  }

  /** `Array.isArray(v) ? v : [v]`. */
  function AsArray(v: Json): (r: Json)
    ensures r.JArr?
    ensures v.JArr? ==> r == v
    ensures !v.JArr? ==> r.items == [v]
  {
    if v.JArr? then v else JArr([v])
  }

  /** Wrapping twice is wrapping once. */
  lemma AsArrayIdempotent(v: Json)
    ensures AsArray(AsArray(v)) == AsArray(v)
  {
  }

  /** `processedFields`: the fields as given, with `years` and `program` made arrays. */
  function ProcessFields(fields: Row): (r: Row)
    ensures r.Keys == fields.Keys + {YearsKey, ProgramKey}
    ensures r[YearsKey] == AsArray(Get(fields, YearsKey)) && r[ProgramKey] == AsArray(Get(fields, ProgramKey))
    ensures forall k :: k in fields && k != YearsKey && k != ProgramKey ==> r[k] == fields[k]
  {
    fields[YearsKey := AsArray(Get(fields, YearsKey))][ProgramKey := AsArray(Get(fields, ProgramKey))]
  }

  /**
   * An update that does not mention `years` still writes it, as the
   * one-element array holding undefined. Once serialised to JSON that
   * element becomes `null`, so the stored column holds `[null]`.
   */
  lemma UpdateWithoutYearsWritesIt(fields: Row)
    requires YearsKey !in fields
    ensures ProcessFields(fields)[YearsKey] == JArr([JUndefined])
  {
  }

  /** The accepted course: exactly the seven carried fields, lists made arrays, and `archived` false. */
  function AcceptedCourse(course: Row): (r: Row)
    ensures r.Keys == {"title", "description", "teacher", "language", "type", YearsKey, ProgramKey, ArchivedKey}
    ensures r[ArchivedKey] == JBool(false)
    ensures r[YearsKey] == AsArray(Get(course, YearsKey)) && r[ProgramKey] == AsArray(Get(course, ProgramKey))
    ensures forall k :: k in {"title", "description", "teacher", "language", "type"} ==> r[k] == Get(course, k)
  {
    map["title" := Get(course, "title"), "description" := Get(course, "description"),
        "teacher" := Get(course, "teacher"), "language" := Get(course, "language"),
        "type" := Get(course, "type"), YearsKey := AsArray(Get(course, YearsKey)),
        ProgramKey := AsArray(Get(course, ProgramKey)), ArchivedKey := JBool(false)]
  }

  /** `.update(fields).eq('id', id)`: every row with that id takes the fields; the others stay. */
  function UpdateWhere(rows: seq<Row>, id: Json, fields: Row): (r: seq<Row>)
    ensures |r| == |rows|
    ensures forall i :: 0 <= i < |rows| ==> r[i] == if Get(rows[i], IdKey) == id then rows[i] + fields else rows[i]
  {
    seq(|rows|, i requires 0 <= i < |rows| => if Get(rows[i], IdKey) == id then rows[i] + fields else rows[i])
  }

  /** `.delete().eq('id', id)`: the rows with that id leave the table, the others stay in order. */
  function DeleteWhere(rows: seq<Row>, id: Json): (r: seq<Row>)
    ensures forall x :: x in r <==> x in rows && Get(x, IdKey) != id
  {
    Lists.Filter(rows, (x: Row) => Get(x, IdKey) != id)
  }

  /** Declining then recovering a suggestion sets the flag back to false on every row with that id. */
  lemma DeclineThenRecover(rows: seq<Row>, id: Json)
    ensures var r := UpdateWhere(UpdateWhere(rows, id, map[DeclinedKey := JBool(true)]), id, map[DeclinedKey := JBool(false)]);
      forall i :: 0 <= i < |rows| && Get(rows[i], IdKey) == id ==> r[i] == rows[i][DeclinedKey := JBool(false)]
  {
    var once := UpdateWhere(rows, id, map[DeclinedKey := JBool(true)]);
    var r := UpdateWhere(once, id, map[DeclinedKey := JBool(false)]);
    forall i | 0 <= i < |rows| && Get(rows[i], IdKey) == id
      ensures r[i] == rows[i][DeclinedKey := JBool(false)]
    {
      assert once[i] == rows[i] + map[DeclinedKey := JBool(true)];
      assert Get(once[i], IdKey) == id;
    }
  }

  /** A database call's outcome: its `data`, or its error's message. */
  datatype DbResult = DbOk(data: Json) | DbErr(message: string)

  /** What a call resolves to, or the message it rejects with. */
  datatype Outcome<T> = Resolved(value: T) | Rejected(message: string)

  /**
   * `deleteDeclinedCourse` as written: the guard after the delete names an
   * undeclared `err`, so it throws whatever the delete did, and the catch
   * returns null.
   */
  function DeleteResultAsWritten(r: DbResult): Option<Json> {
    None
  }

  /** As written, a caller cannot tell a successful delete from a failed one. */
  lemma DeleteResultHidesOutcome(data: Json, message: string)
    ensures DeleteResultAsWritten(DbOk(data)) == DeleteResultAsWritten(DbErr(message))
  {
  }

  /** `deleteDeclinedCourse` as intended (`if (error) throw error; return data;`): the data on success, null on an error. */
  function DeleteResult(r: DbResult): (res: Option<Json>)
    ensures res.Some? <==> r.DbOk?
    ensures r.DbOk? ==> res == Some(r.data)
  {
    if r.DbOk? then Some(r.data) else None
  }

  class Tables {
    var suggested: seq<Row>
    var catalogue: seq<Row>

    constructor (suggested: seq<Row>, catalogue: seq<Row>)
      ensures this.suggested == suggested && this.catalogue == catalogue
    {
      this.suggested := suggested;
      this.catalogue := catalogue;
    }

    /**
     * `updateSuggestedCourse(id, fields)`: a falsy id is refused before any
     * call; otherwise the processed fields are written to every row of that
     * id, and the first updated row is returned (undefined when none).
     */
    method UpdateSuggestedCourse(id: Json, fields: Row, updateError: Option<string>) returns (r: Outcome<Option<Row>>)
      modifies this
      ensures !Truthy(id) ==> r == Rejected(IdRequiredMessage) && suggested == old(suggested)
      ensures Truthy(id) && updateError.Some? ==> r == Rejected(updateError.value) && suggested == old(suggested)
      ensures Truthy(id) && updateError.None? ==>
        && suggested == UpdateWhere(old(suggested), id, ProcessFields(fields))
        && r.Resolved?
        && (r.value.Some? <==> exists i :: 0 <= i < |old(suggested)| && Get(old(suggested)[i], IdKey) == id)
        && (r.value.Some? ==> r.value.value in suggested)
      ensures catalogue == old(catalogue)
    {
      if !Truthy(id) {
        return Rejected(IdRequiredMessage);
      }
      if updateError.Some? {
        return Rejected(updateError.value);
      }
      var before := suggested;
      suggested := UpdateWhere(suggested, id, ProcessFields(fields));
      var k := Lists.FirstIndex(before, (x: Row) => Get(x, IdKey) == id);
      if k.Some? {
        r := Resolved(Some(suggested[k.value]));
      } else {
        r := Resolved(None);
      }
    }

    /**
     * `acceptSuggestedCourse(course)`: the course goes into the catalogue
     * first; only when that insert succeeds is the suggestion deleted. An
     * insert error changes nothing; a delete error leaves the course in both
     * tables.
     */
    method AcceptSuggestedCourse(course: Row, insertError: Option<string>, deleteError: Option<string>)
      returns (r: Outcome<bool>)
      modifies this
      ensures insertError.Some? ==> r == Rejected(insertError.value) && catalogue == old(catalogue) && suggested == old(suggested)
      ensures insertError.None? ==> catalogue == old(catalogue) + [AcceptedCourse(course)]
      ensures insertError.None? && deleteError.Some? ==> r == Rejected(deleteError.value) && suggested == old(suggested)
      ensures insertError.None? && deleteError.None? ==>
        r == Resolved(true) && suggested == DeleteWhere(old(suggested), Get(course, IdKey))
    {
      if insertError.Some? {
        return Rejected(insertError.value);
      }
      catalogue := catalogue + [AcceptedCourse(course)];
      if deleteError.Some? {
        return Rejected(deleteError.value);
      }
      suggested := DeleteWhere(suggested, Get(course, IdKey));
      r := Resolved(true);
    }

    /** `declineSuggestedCourse(id)`: on success every row of that id is declined; an error changes nothing and gives null. */
    method DeclineSuggestedCourse(id: Json, result: DbResult) returns (r: Option<Json>)
      modifies this
      ensures result.DbOk? ==> suggested == UpdateWhere(old(suggested), id, map[DeclinedKey := JBool(true)]) && r == Some(result.data)
      ensures result.DbErr? ==> suggested == old(suggested) && r == None
      ensures catalogue == old(catalogue)
    {
      if result.DbErr? {
        return None;
      }
      suggested := UpdateWhere(suggested, id, map[DeclinedKey := JBool(true)]);
      r := Some(result.data);
    }

    /** `recoverSuggestedCourse(id)`: on success every row of that id is no longer declined; an error changes nothing and gives null. */
    method RecoverSuggestedCourse(id: Json, result: DbResult) returns (r: Option<Json>)
      modifies this
      ensures result.DbOk? ==> suggested == UpdateWhere(old(suggested), id, map[DeclinedKey := JBool(false)]) && r == Some(result.data)
      ensures result.DbErr? ==> suggested == old(suggested) && r == None
      ensures catalogue == old(catalogue)
    {
      if result.DbErr? {
        return None;
      }
      suggested := UpdateWhere(suggested, id, map[DeclinedKey := JBool(false)]);
      r := Some(result.data);
    }

    /**
     * `deleteDeclinedCourse(id)`: a successful delete removes every row of
     * that id; the result is the intended one (see `DeleteResultAsWritten`).
     */
    method DeleteDeclinedCourse(id: Json, result: DbResult) returns (r: Option<Json>)
      modifies this
      ensures result.DbOk? ==> suggested == DeleteWhere(old(suggested), id)
      ensures result.DbErr? ==> suggested == old(suggested)
      ensures r == DeleteResult(result) && catalogue == old(catalogue)
    {
      if result.DbOk? {
        suggested := DeleteWhere(suggested, id);
      }
      r := DeleteResult(result);
    }
  }
}
