/**
 * The Django one-time-code login (Backend/autorization/autentification.py):
 * `send_code` checks a POSTed email against the university domain, draws a
 * six-digit code and appends an `EmailCode` row; `verify_code` looks the
 * submitted `(email, code)` pair up in the `UserRole` table.
 *
 * HTTP and JSON are reduced to what the views inspect: the request method and
 * a body that is either unparseable or a JSON value. Every `JsonResponse("ERROR")`
 * is `Error`; an exception the view does not catch (a database rejection, or
 * `MultipleObjectsReturned`) is `InternalError`.
 */
module BackendAuth {
  import opened Wrappers
  import opened Text
  import opened Models

  const UniversityDomain := "@innopolis.university"
  const CodeSentMessage := "Code generated (sent) (DEMO)"
  const AuthorizedMessage := "Authorized successfully (demo)"
  const CodeLength := 6

  /** The operands of the `or` chain in `send_code`'s role test, in order. */
  const AdminPrefixes: seq<string> :=
    ["a.potyomkin", "m.karpova", "d.potapova", "e.shaikhutdinova", "s.mukhamedshina", "v.gorbacheva", "a.narimov"]

  datatype JsonValue = JString(s: string) | JObject(fields: map<string, JsonValue>) | JOther

  datatype Body = Unparseable | Json(value: JsonValue)

  datatype Request = Request(httpMethod: string, body: Body)

  datatype Response = Error | InternalError | Message(text: string)

  // ----- email and role rules -----

  /** `is_university_email`: the lower-cased email ends with the university domain. */
  predicate IsUniversityEmail(email: string) {
    EndsWith(Lower(email), UniversityDomain)
  }

  /** The domain test ignores case: an email and its lower-case form agree. */
  lemma UniversityEmailIgnoresCase(email: string)
    ensures IsUniversityEmail(email) <==> IsUniversityEmail(Lower(email))
  {
    LowerIdempotent(email);
  }

  /** `.strip().lower()`, applied to the submitted email. */
  function Normalize(s: string): string {
    Lower(PyStrip(s))
  }

  /** Lower-casing never produces a whitespace character from a visible one. */
  lemma LowerCharKeepsNonWhitespace(c: char)
    requires !IsPyWhitespace(c)
    ensures !IsPyWhitespace(LowerChar(c))
  {
  }

  /** A normalised email is already stripped and lower-case: normalising it again changes nothing. */
  lemma NormalizeIdempotent(s: string)
    ensures Normalize(Normalize(s)) == Normalize(s)
  {
    var t := PyStrip(s);
    var l := Lower(t);
    LowerIdempotent(t);
    if l != [] {
      LowerCharKeepsNonWhitespace(t[0]);
      LowerCharKeepsNonWhitespace(t[|t| - 1]);
      assert TrimStart(l, IsPyWhitespace) == l;
      assert TrimEnd(l, IsPyWhitespace) == l;
    }
  }

  /**
   * Python's `x1 or x2 or ... or xn` over strings: the first non-empty
   * operand, or the last one when all are empty.
   */
  function PyOr(operands: seq<string>): (r: string)
    requires |operands| > 0
    ensures r in operands
    ensures r == "" <==> forall i :: 0 <= i < |operands| ==> operands[i] == ""
    ensures r != "" ==> exists i :: 0 <= i < |operands| && operands[i] == r && forall j :: 0 <= j < i ==> operands[j] == ""
  {
    if |operands| == 1 || operands[0] != "" then operands[0]
    else
      var r := PyOr(operands[1..]);
      assert forall i :: 1 <= i < |operands| ==> operands[i] == operands[1..][i - 1];
      r
  }

  /** The role test as written: `startswith` receives the value of the `or` chain. */
  function RoleAsWritten(email: string): Role {
    if StartsWith(email, PyOr(AdminPrefixes)) then Admin else Student
  }

  /** The `or` chain evaluates to its first operand, so only that prefix makes an admin. */
  lemma RoleAsWrittenOnlyFirstPrefix(email: string)
    ensures RoleAsWritten(email) == Admin <==> StartsWith(email, "a.potyomkin")
  {
    assert AdminPrefixes[0] != "";
  }

  /** Some entry of `prefixes` is a prefix of `email`. */
  function HasAnyPrefix(email: string, prefixes: seq<string>): (b: bool)
    ensures b <==> exists i :: 0 <= i < |prefixes| && StartsWith(email, prefixes[i])
  {
    if prefixes == [] then false
    else if StartsWith(email, prefixes[0]) then true
    else
      var b := HasAnyPrefix(email, prefixes[1..]);
      assert forall i :: 1 <= i < |prefixes| ==> prefixes[i] == prefixes[1..][i - 1];
      b
  }

  /** The evidently intended rule: admin when the email starts with any listed prefix. */
  function ResolveRole(email: string): (r: Role)
    ensures r == Admin <==> exists i :: 0 <= i < |AdminPrefixes| && StartsWith(email, AdminPrefixes[i])
  {
    if HasAnyPrefix(email, AdminPrefixes) then Admin else Student
  }

  /** A listed administrator other than the first is a student under the rule as written. */
  lemma SecondAdminIsStudentAsWritten()
    ensures RoleAsWritten("m.karpova@innopolis.university") == Student
    ensures ResolveRole("m.karpova@innopolis.university") == Admin
  {
    var email := "m.karpova@innopolis.university";
    RoleAsWrittenOnlyFirstPrefix(email);
    assert email[..|"a.potyomkin"|] != "a.potyomkin" by {
      assert email[0] != 'a';
    }
    assert StartsWith(email, AdminPrefixes[1]);
  }

  /** On the first prefix the two rules agree. */
  lemma RulesAgreeOnFirstPrefix(email: string)
    requires StartsWith(email, "a.potyomkin")
    ensures RoleAsWritten(email) == ResolveRole(email) == Admin
  {
    RoleAsWrittenOnlyFirstPrefix(email);
    assert StartsWith(email, AdminPrefixes[0]);
  }

  // ----- request parsing -----

  /**
   * `data.get(key, "")` followed by `.strip()`: `None` when the body is not
   * JSON, is not an object, or holds a non-string under `key` (each raises
   * inside the `try`); a missing key reads as "".
   */
  function StringField(body: Body, key: string): (r: Option<string>)
    ensures r.Some? <==> body.Json? && body.value.JObject? && (key in body.value.fields ==> body.value.fields[key].JString?)
    ensures body.Json? && body.value.JObject? && key !in body.value.fields ==> r == Some("")
  {
    match body
    case Unparseable => None
    case Json(JObject(fields)) =>
      if key !in fields then Some("")
      else if fields[key].JString? then Some(fields[key].s)
      else None
    case Json(_) => None
  }

  /**
   * The email `send_code` issues a code to, or `None` when it answers "ERROR":
   * not a POST, a body it cannot read, or an email outside the university domain.
   */
  function SendCodeEmail(request: Request): (r: Option<string>)
    ensures r.Some? ==> request.httpMethod == "POST"
    ensures r.Some? ==> IsUniversityEmail(r.value) && Normalize(r.value) == r.value
    ensures r.Some? <==> request.httpMethod == "POST" && StringField(request.body, "email").Some?
                         && IsUniversityEmail(Normalize(StringField(request.body, "email").value))
    ensures r.Some? ==> r.value == Normalize(StringField(request.body, "email").value)
  {
    if request.httpMethod != "POST" then None
    else
      match StringField(request.body, "email")
      case None => None
      case Some(raw) =>
        var email := Normalize(raw);
        NormalizeIdempotent(raw);
        if IsUniversityEmail(email) then Some(email) else None
  }

  /** Any request other than a POST is refused whatever its body. */
  lemma NonPostRefused(httpMethod: string, body: Body)
    requires httpMethod != "POST"
    ensures SendCodeEmail(Request(httpMethod, body)) == None
  {
  }

  /** A POST whose body holds only a string email is decided on the normalised email alone. */
  lemma SendCodeOfEmail(raw: string)
    ensures SendCodeEmail(Request("POST", Json(JObject(map["email" := JString(raw)]))))
            == if IsUniversityEmail(Normalize(raw)) then Some(Normalize(raw)) else None
  {
    assert StringField(Json(JObject(map["email" := JString(raw)])), "email") == Some(raw);
  }

  /** Surrounding spaces and capitals in a submitted email do not change which code row is written. */
  lemma SendCodeNormalizes(raw: string)
    ensures SendCodeEmail(Request("POST", Json(JObject(map["email" := JString(raw)]))))
            == SendCodeEmail(Request("POST", Json(JObject(map["email" := JString(Normalize(raw))]))))
  {
    SendCodeOfEmail(raw);
    SendCodeOfEmail(Normalize(raw));
    NormalizeIdempotent(raw);
  }

  predicate IsSixDigits(code: string) {
    |code| == CodeLength && forall i :: 0 <= i < |code| ==> IsDigit(code[i])
  }

  /** `"".join(random.choices("0123456789", k=6))`: six independent draws of a digit. */
  method GenerateCode() returns (code: string)
    ensures IsSixDigits(code)
    ensures |code| <= CodeMaxLength
  {
    code := "";
    for k := 0 to CodeLength
      invariant |code| == k
      invariant forall i :: 0 <= i < |code| ==> IsDigit(code[i])
    {
      var d :| 0 <= d < 10;
      code := code + [DigitChar(d)];
    }
  }

  // ----- verify_code -----

  /** The stripped, lower-cased email and the stripped code `verify_code` reads, if it can read them. */
  function VerifyCredentials(request: Request): (r: Option<(string, string)>)
    ensures r.Some? ==> request.httpMethod == "POST"
    ensures r.Some? ==> Normalize(r.value.0) == r.value.0
    ensures r.Some? <==> request.httpMethod == "POST" && StringField(request.body, "email").Some?
                         && StringField(request.body, "code").Some?
    ensures r.Some? ==> r.value == (Normalize(StringField(request.body, "email").value),
                                    PyStrip(StringField(request.body, "code").value))
  {
    if request.httpMethod != "POST" then None
    else
      match (StringField(request.body, "email"), StringField(request.body, "code"))
      case (Some(e), Some(c)) =>
        NormalizeIdempotent(e);
        Some((Normalize(e), PyStrip(c)))
      case _ => None
  }

  /** A row `UserRole.objects.get(email=..., verification_code=...)` would return. */
  predicate MatchesRow(u: UserRole, email: string, code: string) {
    u.email == email && u.verificationCode == code
  }

  function CountMatches(rows: seq<UserRole>, email: string, code: string): (n: nat)
    ensures n <= |rows|
    ensures n == 0 <==> forall i :: 0 <= i < |rows| ==> !MatchesRow(rows[i], email, code)
  {
    if rows == [] then 0
    else
      var n := CountMatches(rows[1..], email, code);
      assert forall i :: 1 <= i < |rows| ==> rows[i] == rows[1..][i - 1];
      (if MatchesRow(rows[0], email, code) then 1 else 0) + n
  }

  /**
   * `verify_code` over the `UserRole` rows: "ERROR" when the request cannot be
   * read or no row matches (`DoesNotExist`); an uncaught exception when
   * several rows match; the success message when exactly one does.
   */
  function Verify(rows: seq<UserRole>, request: Request): (r: Response)
    ensures r.Message? ==> r.text == AuthorizedMessage
    ensures r == Error <==> VerifyCredentials(request).None?
                            || forall i :: 0 <= i < |rows| ==> !MatchesRow(rows[i], VerifyCredentials(request).value.0, VerifyCredentials(request).value.1)
  {
    match VerifyCredentials(request)
    case None => Error
    case Some((email, code)) =>
      var n := CountMatches(rows, email, code);
      if n == 0 then Error else if n == 1 then Message(AuthorizedMessage) else InternalError
  }

  /** With `email` unique, at most one row can match a pair. */
  lemma {:induction false} UniqueEmailAtMostOneMatch(rows: seq<UserRole>, email: string, code: string)
    requires ValidUserRoles(rows)
    ensures CountMatches(rows, email, code) <= 1
  {
    if rows != [] {
      var tail := rows[1..];
      assert ValidUserRoles(tail) by {
        forall i, j | 0 <= i < j < |tail| ensures tail[i].email != tail[j].email {
          assert tail[i] == rows[i + 1] && tail[j] == rows[j + 1];
        }
      }
      UniqueEmailAtMostOneMatch(tail, email, code);
      if MatchesRow(rows[0], email, code) {
        forall i | 0 <= i < |tail| ensures !MatchesRow(tail[i], email, code) {
          assert tail[i] == rows[i + 1];
        }
      }
    }
  }

  /**
   * On a valid table `verify_code` authorizes exactly when some row holds the
   * normalised email and the stripped code, and never fails with an exception.
   * No domain check and no time check take part.
   */
  lemma VerifyAuthorizesIffRowMatches(rows: seq<UserRole>, request: Request)
    requires ValidUserRoles(rows)
    ensures Verify(rows, request) != InternalError
    ensures Verify(rows, request) == Message(AuthorizedMessage) <==>
      VerifyCredentials(request).Some? &&
      exists i :: 0 <= i < |rows| && MatchesRow(rows[i], VerifyCredentials(request).value.0, VerifyCredentials(request).value.1)
  {
    match VerifyCredentials(request)
    case None =>
    case Some((email, code)) =>
      UniqueEmailAtMostOneMatch(rows, email, code);
  }

  /** A row with a blank verification code authorizes a request that sends its email and no code at all. */
  lemma BlankCodeAuthorizes(rows: seq<UserRole>, i: nat)
    requires ValidUserRoles(rows)
    requires i < |rows| && rows[i].verificationCode == "" && Normalize(rows[i].email) == rows[i].email
    ensures Verify(rows, Request("POST", Json(JObject(map["email" := JString(rows[i].email)])))) == Message(AuthorizedMessage)
  {
    var request := Request("POST", Json(JObject(map["email" := JString(rows[i].email)])));
    assert StringField(request.body, "code") == Some("");
    assert PyStrip("") == "";
    assert VerifyCredentials(request) == Some((rows[i].email, ""));
    assert MatchesRow(rows[i], rows[i].email, "");
    VerifyAuthorizesIffRowMatches(rows, request);
  }

  /** Nothing in the back end writes `UserRole`: on its initial empty table every verification fails. */
  lemma EmptyUserRolesRejectEverything(request: Request)
    ensures Verify([], request) == Error
  {
  }

  // ----- the two tables -----

  class Database {
    var userRoles: seq<UserRole>
    var emailCodes: seq<EmailCode>

    predicate Valid()
      reads this
    {
      ValidUserRoles(userRoles) && ValidEmailCodes(emailCodes)
    }

    /** Both tables start empty. */
    constructor ()
      ensures Valid()
      ensures userRoles == [] && emailCodes == []
    {
      userRoles := [];
      emailCodes := [];
    }

    /** `verify_code` against the current `UserRole` table; it reads nothing else. */
    function VerifyCode(request: Request): (r: Response)
      reads this
      ensures r == Verify(userRoles, request)
    {
      Verify(userRoles, request)
    }

    /**
     * `send_code` at time `now` (milliseconds). On success one `EmailCode`
     * row with the normalised email, a six-digit code and `now` as its
     * creation time is appended and nothing else changes; every "ERROR"
     * leaves the tables as they were. An email longer than the column allows
     * is refused by the database, an exception the view does not catch.
     * `role` is the role lines 33-36 compute (and then never store), with
     * the intended reading of the prefix list.
     */
    method SendCode(request: Request, now: int) returns (response: Response, role: Option<Role>)
      requires Valid()
      modifies this`emailCodes
      ensures Valid()
      ensures SendCodeEmail(request).None? ==> response == Error && role == None && emailCodes == old(emailCodes)
      ensures SendCodeEmail(request).Some? && |SendCodeEmail(request).value| > EmailMaxLength ==>
        response == InternalError && emailCodes == old(emailCodes)
      ensures SendCodeEmail(request).Some? && |SendCodeEmail(request).value| <= EmailMaxLength ==>
        && response == Message(CodeSentMessage)
        && role == Some(ResolveRole(SendCodeEmail(request).value))
        && |emailCodes| == |old(emailCodes)| + 1
        && emailCodes[..|old(emailCodes)|] == old(emailCodes)
        && emailCodes[|old(emailCodes)|].email == SendCodeEmail(request).value
        && IsSixDigits(emailCodes[|old(emailCodes)|].code)
        && emailCodes[|old(emailCodes)|].createdAt == now
    {
      var target := SendCodeEmail(request);
      if target.None? {
        response, role := Error, None;
        return;
      }
      var email := target.value;
      role := Some(ResolveRole(email));
      var code := GenerateCode();
      if |email| > EmailMaxLength {
        response := InternalError;
      } else {
        var row := EmailCode(email, code, now);
        assert ValidEmailCode(row);
        emailCodes := emailCodes + [row];
        response := Message(CodeSentMessage);
      }
    }
  }

  /**
   * Issuing a code never changes what `verify_code` answers: the code goes
   * to `EmailCode`, and the lookup reads only `UserRole`.
   */
  method IssuedCodeIsNotConsulted(db: Database, send: Request, now: int, verify: Request)
    returns (before: Response, after: Response)
    requires db.Valid()
    modifies db`emailCodes
    ensures before == after
  {
    before := db.VerifyCode(verify);
    var _, _ := db.SendCode(send, now);
    after := db.VerifyCode(verify);
  }
}
