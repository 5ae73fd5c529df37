# MakeYourChoice — a Dafny model of its core

MakeYourChoice is a course-elective system for Innopolis University. Students log in with a
university email, browse the course catalogue, keep favourites and rank elective courses
by priority. Administrators edit courses, student programs and semesters, and review the
courses that students suggest. The system has a React + Supabase front end and a small
Django back end. This project models the parts of both that hold logic of their own,
one module per source file:

- **Back-end login** (`BackendAuth`, `Models`): the university-domain test, the admin-prefix
  role rule, the six-digit code, the append-only `EmailCode` table and the `UserRole` lookup
  that `verify_code` performs.
- **Front-end authentication** (`Validation`, `UseLogin`, `AuthContext`, `ProtectedRoute`,
  `FakeUserDb`): the email predicates, the login transition, the role/email store kept in step
  with `localStorage`, the route guard and the in-memory user list.
- **Priority selection** (`ElectivesForm`, `VotingForm`, `FormSubmit`, `App`): per-slot
  availability, restore and clear, the submit validator with its `tech1..`/`hum1..` keys, the
  preferences upsert, the older voting form and the favourites/votes page.
- **Catalogue and program lists** (`Catalogue`, `Programs`, `Filters`): the course form,
  replace-by-id versus append, delete by id, form reset, and the filter toggles.
- **Helpers** (`ExcelExport`, `Deadline`, `CourseTile`): `createAbbreviation` with the export's
  per-row loop and legend, the time-remaining arithmetic and text, and `escapeRegExp`.
- **Forms and wizards** (`CourseModal`, `ProgramModal`, `Semesters`, `SemesterFormComponent`,
  `AdminSemesterPage`, `SuggestForm`, `SuggestedCourses`): the modal guards, the two semester
  editors with their shared draft, the two-step suggestion wizard and the suggested-course calls.
- Shared modules: `Wrappers` (`Option`), `Text` (JavaScript and Python whitespace, case,
  `parseInt`, prefixes and suffixes) and `Lists` (toggle, filter, replace, find).

Conventions:

- Every database call, `fetch`, `alert`/`confirm` answer and captcha widget is an outcome passed
  to the operation that uses it. The operation applies its effect only on success, in the order
  the source makes the calls.
- A React component or hook becomes a `class`. Its state variables are fields, and each handler
  is a method that states the whole new state. An effect is run to completion inside the handler
  whose state change triggers it.
- `localStorage` is a `map<string, string>`, or a parsed draft map.
- JavaScript truthiness, `||` defaults, `??` and `parseInt` (with `None` for `NaN`) are written
  out.
- Times are integer milliseconds passed in. Randomness is a nondeterministic choice constrained
  the way the source constrains it.

## Model

| member | source | states |
|---|---|---|
| Models.RoleOfValue | MakeYourChoice/models.py:5 | a stored `role` column reads back as a role exactly when it is "student" or "admin", and that role stores the same text |
| Models.RoleValueRoundTrip | MakeYourChoice/models.py:5 | storing a role and reading it back gives the same role |
| BackendAuth.IsUniversityEmail | Backend/autorization/autentification.py:17-18 | `is_university_email`: the lower-cased email ends with "@innopolis.university"; that case does not matter is proved in `UniversityEmailIgnoresCase` |
| BackendAuth.UniversityEmailIgnoresCase | Backend/autorization/autentification.py:17-18 | the domain test gives the same answer on an email and its lower-case form |
| BackendAuth.Normalize | Backend/autorization/autentification.py:26 | `strip().lower()` on the submitted email: Python whitespace removed at both ends, then lower case; idempotence is proved in `NormalizeIdempotent` |
| BackendAuth.NormalizeIdempotent | Backend/autorization/autentification.py:26 | the email normalisation (`strip().lower()`) changes nothing the second time |
| BackendAuth.PyOr | Backend/autorization/autentification.py:33 | Python's `or` over strings gives the first non-empty operand, or "" exactly when all are empty |
| BackendAuth.RoleAsWritten | Backend/autorization/autentification.py:33-36 | the role as written: admin exactly when the email starts with the value of the `or` chain, which `RoleAsWrittenOnlyFirstPrefix` shows is the first prefix alone |
| BackendAuth.RoleAsWrittenOnlyFirstPrefix | Backend/autorization/autentification.py:33-36 | as written, the role is admin exactly when the email starts with "a.potyomkin" |
| BackendAuth.HasAnyPrefix | Backend/autorization/autentification.py:33 | true exactly when some listed prefix starts the email |
| BackendAuth.ResolveRole | Backend/autorization/autentification.py:33-36 | the intended rule: admin exactly when the email starts with one of the seven listed prefixes |
| BackendAuth.SecondAdminIsStudentAsWritten | Backend/autorization/autentification.py:33-36 | "m.karpova@innopolis.university" is a student as written and an admin under the intended rule |
| BackendAuth.RulesAgreeOnFirstPrefix | Backend/autorization/autentification.py:33-36 | both rules make an "a.potyomkin" email an admin |
| BackendAuth.StringField | Backend/autorization/autentification.py:24-28 | reading `email` (or `code`) fails exactly when the body is not a JSON object or holds a non-string there; a missing key reads as "" |
| BackendAuth.SendCodeEmail | Backend/autorization/autentification.py:21-31 | a code is issued exactly for a POST whose email can be read and, once normalised, is in the university domain; the issued email is exactly the normalised (`strip().lower()`) `email` field |
| BackendAuth.NonPostRefused | Backend/autorization/autentification.py:22-23 | any request other than a POST is refused, whatever its body |
| BackendAuth.SendCodeOfEmail | Backend/autorization/autentification.py:24-31 | a POST whose body holds a string email issues the code to its normalised form exactly when that form is a university address |
| BackendAuth.SendCodeNormalizes | Backend/autorization/autentification.py:26-30 | surrounding spaces and capitals in the submitted email do not change the outcome |
| BackendAuth.GenerateCode | Backend/autorization/autentification.py:38 | the code has exactly six characters, each a decimal digit, so it fits the six-character column |
| BackendAuth.VerifyCredentials | Backend/autorization/autentification.py:45-52 | credentials are read exactly when the request is a POST whose `email` and `code` fields are strings (a missing key reads as ""); they are the stripped, lower-cased email and the stripped code |
| BackendAuth.CountMatches | Backend/autorization/autentification.py:55 | counts the `UserRole` rows with the email and code; zero exactly when none matches |
| BackendAuth.Verify | Backend/autorization/autentification.py:45-60 | `verify_code` answers "ERROR" exactly when the request cannot be read or no row holds the email and code; success carries the authorised message |
| BackendAuth.UniqueEmailAtMostOneMatch | MakeYourChoice/models.py:4 | with `email` unique, at most one row matches an email and code |
| BackendAuth.VerifyAuthorizesIffRowMatches | Backend/autorization/autentification.py:47-60 | on a valid table, verification never raises and authorises exactly when some row holds the normalised email and the stripped code; there is no domain or time check |
| BackendAuth.BlankCodeAuthorizes | MakeYourChoice/models.py:6 | a row with a blank code authorises a request that sends its email and no code |
| BackendAuth.EmptyUserRolesRejectEverything | Backend/autorization/autentification.py:54-57 | on an empty `UserRole` table every verification fails |
| BackendAuth.Database.constructor | MakeYourChoice/models.py:3-15 | both tables start empty and valid |
| BackendAuth.Database.VerifyCode | Backend/autorization/autentification.py:44-60 | verification reads the `UserRole` table only |
| BackendAuth.Database.SendCode | Backend/autorization/autentification.py:21-41 | a refused request adds no `EmailCode` row; an accepted one appends exactly one row with the normalised email and a six-digit code, leaves earlier rows alone and reports the role by the intended rule `ResolveRole` |
| BackendAuth.IssuedCodeIsNotConsulted | Backend/autorization/autentification.py:39-55 | issuing a code never changes what `verify_code` answers, because the code goes to `EmailCode` and the lookup reads `UserRole` |
| Validation.IsInnopolisEmail | frontend/src/utils/validation.js:2-3 | `isInnopolisEmail`: a case-sensitive suffix test for "@innopolis.university", with no trimming |
| Validation.IsAdmin | frontend/src/utils/validation.js:5-6 | `isAdmin`: exactly the one administrator address |
| Validation.AdminIsInnopolis | frontend/src/utils/validation.js:2-6 | the administrator address passes the domain test |
| Validation.FrontAcceptanceImpliesBackAcceptance | frontend/src/utils/validation.js:2-3 | every email the front end accepts, the back end accepts too |
| Validation.UpperCaseDomainOnlyOnBackEnd | frontend/src/utils/validation.js:2-3 | an upper-case domain is accepted by the back end and rejected by the front end |
| UseLogin.LoginRole | frontend/src/hooks/useLogin.js:45 | the role is "admin" exactly when the email is the administrator's, otherwise "student" |
| UseLogin.LoginForm.constructor | frontend/src/hooks/useLogin.js:28-29 | empty email, no error, no navigation |
| UseLogin.LoginForm.SetEmail | frontend/src/hooks/useLogin.js:28 | only the email changes |
| UseLogin.LoginForm.HandleLogin | frontend/src/hooks/useLogin.js:36-49 | a non-university email sets the domain error and changes neither the auth store nor the navigation; otherwise the error is cleared, `loginAs(role, email)` runs and '/catalogue' is navigated to |
| UseLogin.LoginRoleIsTruthy | frontend/src/hooks/useLogin.js:45-46 | a login always leaves a truthy role |
| AuthContext.StoredRole | frontend/src/context/AuthContext.jsx:24 | the initial role is the stored one when it is non-empty, otherwise null |
| AuthContext.StoredEmail | frontend/src/context/AuthContext.jsx:25 | the initial email is the stored one, "" when absent |
| AuthContext.Synchronize | frontend/src/context/AuthContext.jsx:28-36 | afterwards `role` is stored exactly when truthy and `email` exactly when non-empty; every other key is untouched |
| AuthContext.ReloadRestoresState | frontend/src/context/AuthContext.jsx:24-36 | reading a synchronised storage back gives the same role and email |
| AuthContext.AuthStore.constructor | frontend/src/context/AuthContext.jsx:24-36 | state is read from storage, and storage is then synchronised |
| AuthContext.AuthStore.LoginAs | frontend/src/context/AuthContext.jsx:44-47 | role and email become the arguments, and storage follows |
| AuthContext.AuthStore.Logout | frontend/src/context/AuthContext.jsx:51-54 | role becomes null and email ""; storage loses exactly the two keys |
| ProtectedRoute.DecisionAsWritten | frontend/src/components/ProtectedRoute.jsx:21-33 | as written: no role redirects to "/"; the element is shown exactly for a truthy role unless the route requires an admin and the role is "admin" |
| ProtectedRoute.AdminOnlyRouteInverted | frontend/src/components/ProtectedRoute.jsx:27-30 | as written, an admin is redirected from an admin-only route and a student is shown it |
| ProtectedRoute.Guard | frontend/src/components/ProtectedRoute.jsx:23-33 | as the comment at line 27 intends: the element is shown exactly for a truthy role that is "admin" or on a route that does not require an admin; anyone else logged in is sent to the student catalogue, never back to the admin-only `/admin-catalogue` (`frontend/src/App.jsx:18-25`) |
| ProtectedRoute.DefaultGuardAgrees | frontend/src/components/ProtectedRoute.jsx:21-33 | with the default `requireAdmin = false` both guards agree and every truthy role sees the element |
| ProtectedRoute.GuardsDisagreeOnAdminRoutes | frontend/src/components/ProtectedRoute.jsx:28-30 | on an admin-only route the two guards disagree for every logged-in user |
| FakeUserDb.UserList.constructor | frontend/src/utils/fakeUserDB.js:2 | the list starts with the administrator alone |
| FakeUserDb.UserList.AddUser | frontend/src/utils/fakeUserDB.js:4-6 | the user is appended at the end, with no duplicate check |
| FakeUserDb.UserList.GetUsers | frontend/src/utils/fakeUserDB.js:8-10 | the list itself |
| FakeUserDb.UserList.FindUser | frontend/src/utils/fakeUserDB.js:12-14 | the first user with both the email and the password; none exactly when no user matches |
| FakeUserDb.UserList.UserExists | frontend/src/utils/fakeUserDB.js:16-18 | true exactly when some user has the email |
| FakeUserDb.AddThenFind | frontend/src/utils/fakeUserDB.js:4-18 | after `addUser(u)`, `userExists(u.email)` holds and `findUser` finds u's credentials |
| FakeUserDb.SeededAdminIsFound | frontend/src/utils/fakeUserDB.js:2-22 | the seeded administrator is found by its credentials and recognised by `isAdmin` |
| ExcelExport.UpperLetter | frontend/src/hooks/useExcelExport.js:25 | upper-casing a Latin or Cyrillic letter gives a letter of the same kind that is not lower-case |
| ExcelExport.Word | frontend/src/hooks/useExcelExport.js:24 | the longest prefix free of whitespace, '-' and ':' |
| ExcelExport.DropSeparators | frontend/src/hooks/useExcelExport.js:24 | removes exactly the leading run of separators |
| ExcelExport.Split | frontend/src/hooks/useExcelExport.js:24 | splitting on separator runs gives at least one piece |
| ExcelExport.Initial | frontend/src/hooks/useExcelExport.js:25 | a word contributes at most one letter |
| ExcelExport.Initials | frontend/src/hooks/useExcelExport.js:25 | one initial per word |
| ExcelExport.NonEmpty | frontend/src/hooks/useExcelExport.js:26 | keeps only non-empty parts, in order |
| ExcelExport.Scan | frontend/src/hooks/useExcelExport.js:23-27 | a left-to-right reference definition whose output is upper-case name letters, no longer than its input |
| ExcelExport.JoinNonEmptyInitialsCons | frontend/src/hooks/useExcelExport.js:25-27 | the pipeline on a first word and the rest is that word's initial followed by the pipeline on the rest |
| ExcelExport.ScanSkipsWordTail | frontend/src/hooks/useExcelExport.js:25 | letters after a word's first character contribute nothing |
| ExcelExport.ScanAfterSeparators | frontend/src/hooks/useExcelExport.js:24 | a separator run starts a new word |
| ExcelExport.ScanWord | frontend/src/hooks/useExcelExport.js:24-25 | a whole word gives its initial, then the scan of what follows |
| ExcelExport.AbbreviationCons | frontend/src/hooks/useExcelExport.js:23-27 | one step of the pipeline: the first word's initial, then the abbreviation after the separators |
| ExcelExport.ScanCons | frontend/src/hooks/useExcelExport.js:23-27 | the same step for the reference scan |
| ExcelExport.Abbreviation | frontend/src/hooks/useExcelExport.js:23-27 | `createAbbreviation` as the source writes it: split on separator runs, the upper-cased first letter of each word, empty parts dropped, joined; what it yields is proved against `Scan` in `AbbreviationIsScan` |
| ExcelExport.AbbreviationIsScan | frontend/src/hooks/useExcelExport.js:23-27 | the split/map/filter/join pipeline equals the reference scan on every string |
| ExcelExport.AbbreviationIsUpperCase | frontend/src/hooks/useExcelExport.js:25 | the result is the upper-cased first letters of words that start with a Latin or Cyrillic letter |
| ExcelExport.AbbreviationAtMostWordCount | frontend/src/hooks/useExcelExport.js:23-27 | the result is no longer than the number of words |
| ExcelExport.ScanWordSpace | frontend/src/hooks/useExcelExport.js:24-25 | a word and one space give its initial, then a fresh scan |
| ExcelExport.BrandingExample | frontend/tests/unit/hooks/createAbbreviation.test.js:6-7 | 'Branding & Marketing in IT Industry' abbreviates to 'BMIII' |
| ExcelExport.BrandingTailScan | frontend/tests/unit/hooks/createAbbreviation.test.js:6-7 | "in IT Industry" scans to "III" |
| ExcelExport.BrandingHeadScan | frontend/tests/unit/hooks/createAbbreviation.test.js:6-7 | "Branding & Marketing " before such a tail adds "BM" |
| ExcelExport.AbbreviateCell | frontend/src/hooks/useExcelExport.js:20-21 | a falsy or non-string cell is returned unchanged; text is abbreviated |
| ExcelExport.UpdateSlot | frontend/src/hooks/useExcelExport.js:54-61 | one column update keeps the row's set of columns |
| ExcelExport.RowAfter | frontend/src/hooks/useExcelExport.js:50-62 | the loop keeps the row's set of columns |
| ExcelExport.ProcessRow | frontend/src/hooks/useExcelExport.js:48-64 | the loop over i = 1..5 gives the row and the course set the round-by-round specification gives |
| ExcelExport.SlotKeysDistinct | frontend/src/hooks/useExcelExport.js:51-52 | different rounds or prefixes name different columns |
| ExcelExport.SlotKeysBelow | frontend/src/hooks/useExcelExport.js:50-52 | the columns of earlier rounds carry smaller numbers |
| ExcelExport.SlotKeyIsNew | frontend/src/hooks/useExcelExport.js:50-52 | no earlier round touched the columns of round n |
| ExcelExport.HumTechDiffer | frontend/src/hooks/useExcelExport.js:51-52 | `hum{i}` and `tech{i}` are different columns |
| ExcelExport.RowAfterMeaning | frontend/src/hooks/useExcelExport.js:54-61 | after the loop each truthy `hum{i}`/`tech{i}` holds its abbreviation and every other column is unchanged |
| ExcelExport.CoursesAfterMeaning | frontend/src/hooks/useExcelExport.js:54-61 | the loop collects exactly the truthy `hum{i}`/`tech{i}` names of the row |
| ExcelExport.AllCoursesMeaning | frontend/src/hooks/useExcelExport.js:46-65 | a name is collected exactly when some row holds it, non-empty, in one of its ten slot columns |
| ExcelExport.ProcessData | frontend/src/hooks/useExcelExport.js:46-65 | every row is processed by the loop, and `allCourses` is the union over all rows |
| ExcelExport.Less | frontend/src/hooks/useExcelExport.js:86 | the order of `sort()` without a comparator on strings: character by character, a proper prefix first; a strict total order by `LessIrreflexive`, `LessTransitive` and `LessTotal` |
| ExcelExport.LessIrreflexive | frontend/src/hooks/useExcelExport.js:86 | the order `sort()` uses is irreflexive |
| ExcelExport.LessTransitive | frontend/src/hooks/useExcelExport.js:86 | the order `sort()` uses is transitive |
| ExcelExport.LessTotal | frontend/src/hooks/useExcelExport.js:86 | the order `sort()` uses is total on different strings |
| ExcelExport.Insert | frontend/src/hooks/useExcelExport.js:86 | inserting a new name into a strictly sorted list keeps it strictly sorted and adds exactly that name |
| ExcelExport.SortNames | frontend/src/hooks/useExcelExport.js:85-86 | every collected name exactly once, in strictly increasing order |
| ExcelExport.BuildLegend | frontend/src/hooks/useExcelExport.js:85-92 | the legend lists each distinct full name once, sorted, beside its abbreviation |
| ExcelExport.ExportToExcel | frontend/src/hooks/useExcelExport.js:34-92 | a query error gives no workbook; empty data gives "No data to export"; otherwise every row is processed and the legend holds every collected name once, sorted, with its abbreviation |
| Deadline.CalculateTimeRemaining | frontend/src/api/func_for_access_to_courses_by_deadline.js:64-78 | all zero when total ≤ 0; otherwise seconds < 60, minutes < 60, hours < 24, and the units reassemble `total` to within one second |
| Deadline.Reconstruct | frontend/src/api/func_for_access_to_courses_by_deadline.js:72-75 | days, hours, minutes and seconds account for `total` down to the millisecond remainder |
| Deadline.FormatTimeRemaining | frontend/src/api/func_for_access_to_courses_by_deadline.js:86-103 | 'Deadline passed' exactly when there is no time or total ≤ 0 |
| Deadline.UnitPlural | frontend/src/api/func_for_access_to_courses_by_deadline.js:94-102 | a unit word takes 's' exactly when its count is not 1 |
| Deadline.FormatShowsLeadingUnits | frontend/src/api/func_for_access_to_courses_by_deadline.js:93-102 | the text names days and hours from one day on, hours and minutes from one hour, minutes and seconds from one minute, and seconds alone below that |
| Deadline.CheckCourseDeadline | frontend/src/api/func_for_access_to_courses_by_deadline.js:16-55 | a failed query or a missing deadline fails closed (passed, no deadline, no time, an error); otherwise passed exactly when now ≥ deadline, and time is shown exactly when the remaining total is positive |
| Deadline.OneClockConsistent | frontend/src/api/func_for_access_to_courses_by_deadline.js:41-43 | with one clock reading, time is shown exactly when the deadline has not passed |
| Deadline.PassedWhenNoTimeShown | frontend/src/api/func_for_access_to_courses_by_deadline.js:43-89 | a status formats as 'Deadline passed' exactly when it shows no time |
| FormSubmit.KeyInjective | frontend/src/hooks/useFormSubmit.js:68 | two priority columns of one tab are equal only for the same priority |
| FormSubmit.KeysUpToMembers | frontend/src/hooks/useFormSubmit.js:67-69 | the columns written for n priorities are those of priorities 1..n |
| FormSubmit.KeysUpToSize | frontend/src/hooks/useFormSubmit.js:67-69 | n priorities give exactly n columns |
| FormSubmit.BuildUpdateFields | frontend/src/hooks/useFormSubmit.js:66-69 | exactly one key `${activeTab}${i+1}` per selected course, holding that course |
| FormSubmit.Blank | frontend/src/hooks/useFormSubmit.js:79-80 | `Array(n).fill("")`: n empty strings |
| FormSubmit.Upsert | frontend/src/hooks/useFormSubmit.js:76-86 | the preference table after a submit: the email's entry with the submitted tab's fields, after every other entry; its meaning is `UpsertMeaning` |
| FormSubmit.UpsertMeaning | frontend/src/hooks/useFormSubmit.js:76-86 | afterwards there is exactly one entry for the email, at the end, holding the selection on the submitted tab and keeping the other tab (blanks sized by the limits for a new student); every other student's entry is kept, and only those |
| FormSubmit.ResubmitKeepsOneEntry | frontend/src/hooks/useFormSubmit.js:76-86 | submitting twice for a student leaves one entry, holding the latest selection |
| FormSubmit.Submitter.constructor | frontend/src/hooks/useFormSubmit.js:27-29 | no preferences, limits {tech: 5, hum: 5} |
| FormSubmit.Submitter.LoadLimits | frontend/src/hooks/useFormSubmit.js:31-45 | the limits are replaced only for a truthy email whose program is found |
| FormSubmit.Submitter.OnSubmit | frontend/src/hooks/useFormSubmit.js:56-93 | a selection of the wrong length or with an empty entry is refused with nothing sent; otherwise the field map is sent, and only a successful write applies the upsert |
| ElectivesForm.OfType | frontend/src/components/ElectivesForm.jsx:50 | exactly the courses of the form's own type are offered |
| ElectivesForm.Restored | frontend/src/components/ElectivesForm.jsx:57-68 | saved selections are restored only when their length equals the slot count; otherwise every slot is "" |
| ElectivesForm.OtherSlots | frontend/src/components/ElectivesForm.jsx:120 | the titles chosen at every slot except i |
| ElectivesForm.Available | frontend/src/components/ElectivesForm.jsx:119-124 | slot i offers every course of the type except those chosen at other slots, and keeps its own current value |
| ElectivesForm.ChoosingAvailableKeepsDistinct | frontend/src/components/ElectivesForm.jsx:83-124 | choosing from a slot's list, or the placeholder, never puts one title at two slots |
| ElectivesForm.FreeChoiceCanDuplicate | frontend/src/components/ElectivesForm.jsx:119-124 | without the per-slot lists one title could be chosen at two slots |
| ElectivesForm.Form.constructor | frontend/src/components/ElectivesForm.jsx:28-33 | no courses, no slots, no error, loading |
| ElectivesForm.Form.Initialize | frontend/src/components/ElectivesForm.jsx:36-78 | a failed fetch sets the error and keeps the rest; a null program sets the error after the courses of the type are already offered (51-54); otherwise the courses of the type are offered, the slot count comes from the program and the saved selections are restored; loading ends either way |
| ElectivesForm.Form.HandleChange | frontend/src/components/ElectivesForm.jsx:83-88 | only slot `index` changes, and the array is saved under `electives-${type}` |
| ElectivesForm.Form.HandleClear | frontend/src/components/ElectivesForm.jsx:93-97 | every slot becomes "", the saved array is removed, and `onClear(type)` is called when given |
| ElectivesForm.Form.Submit | frontend/src/components/ElectivesForm.jsx:110-113 | the parent receives the current selections and the form's type |
| ElectivesForm.BlankIsDistinct | frontend/src/components/ElectivesForm.jsx:93-94 | a cleared form has no title at two slots |
| ElectivesForm.SavedChangeIsRestored | frontend/src/components/ElectivesForm.jsx:57-88 | what a change saves is what a later initialisation restores |
| VotingForm.IndexOf | frontend/src/components/VotingForm.jsx:20 | the position of the course's entry, or none exactly when it has no entry |
| VotingForm.Assign | frontend/src/components/VotingForm.jsx:34-40 | `{...prev.priorities, [courseId]: value}` on an ordered list of entries; its meaning is `AssignMeaning` |
| VotingForm.AssignMeaning | frontend/src/components/VotingForm.jsx:34-40 | assigning keeps one entry per course, gives the course the value and leaves every other course's entry alone |
| VotingForm.Values | frontend/src/components/VotingForm.jsx:50 | `Object.values(priorities)`: the values in entry order |
| VotingForm.NonEmpty | frontend/src/components/VotingForm.jsx:51-53 | exactly the non-empty values |
| VotingForm.SetSizeDetectsDuplicates | frontend/src/components/VotingForm.jsx:51-53 | the set is never larger than the list, and equally large exactly when no value repeats |
| VotingForm.NonEmptyAllDifferent | frontend/src/components/VotingForm.jsx:51-53 | the non-empty values are all different exactly when no non-empty value is given to two courses |
| VotingForm.Submit | frontend/src/components/VotingForm.jsx:47-65 | the duplicate alert exactly when a non-empty priority repeats; the form is submitted exactly when there are no duplicates, one priority per course and none empty |
| VotingForm.IsPriorityAvailable | frontend/src/components/VotingForm.jsx:43-45 | `isPriorityAvailable`: the priority's decimal form is not in the used set |
| VotingForm.UsedAfter | frontend/src/components/VotingForm.jsx:23-31 | the previous value leaves the used set when it was non-empty, and the new value joins when it is non-empty |
| VotingForm.ChangeKeepsInSync | frontend/src/components/VotingForm.jsx:18-110 | choosing "Clean" or an enabled option keeps the used set equal to the non-empty priorities, with none given twice |
| VotingForm.ReplaceKeepsDistinct | frontend/src/components/VotingForm.jsx:34-40 | overwriting an entry with a blank, its own value or an unused value keeps the priorities distinct |
| VotingForm.ReplaceUsed | frontend/src/components/VotingForm.jsx:23-31 | overwriting an entry moves its old value out of the used set and the new one in |
| VotingForm.AppendKeepsDistinct | frontend/src/components/VotingForm.jsx:34-40 | adding a course's first entry with a blank or unused value keeps the priorities distinct |
| VotingForm.AppendUsed | frontend/src/components/VotingForm.jsx:29-31 | a course's first entry adds its value, when non-empty, to the used set |
| VotingForm.InSyncNeverDuplicate | frontend/src/components/VotingForm.jsx:53-110 | a form used only through its enabled options never hits the duplicate alert |
| VotingForm.Form.constructor | frontend/src/components/VotingForm.jsx:4-11 | empty fields, no priorities, an empty used set, not submitted |
| VotingForm.Form.HandleChange | frontend/src/components/VotingForm.jsx:13-16 | only the named text field changes |
| VotingForm.Form.HandlePriorityChange | frontend/src/components/VotingForm.jsx:18-41 | the used set is updated as `UsedAfter` says and only this course's priority changes |
| VotingForm.Form.HandleSubmit | frontend/src/components/VotingForm.jsx:47-65 | the outcome of the submit checks; `submitted` is set only when the form data is handed on |
| App.HasDuplicatePriorities | frontend/App.js:75-78 | true exactly when two priorities, blank ones included, are equal |
| App.CoursesToShow | frontend/App.js:116-118 | every course in the catalogue view; otherwise exactly the courses whose id is a favourite |
| App.ToggledFavoriteShown | frontend/App.js:63-118 | outside the catalogue view, toggling a course's favourite shows it exactly when it was not a favourite |
| App.ShownKeepsOrder | frontend/App.js:116-118 | the favourites view keeps the catalogue's order |
| App.Page.constructor | frontend/App.js:9-48 | catalogue view, favourites and votes read from storage (`|| []` when absent), no selection, modal and menu closed |
| App.Page.ToggleFavorite | frontend/App.js:63-70 | the id is removed when present and appended otherwise, no other id changes membership, and the list is saved |
| App.Page.HandleVoteSubmit | frontend/App.js:73-90 | a vote with a repeated priority is refused and nothing changes; otherwise exactly one vote with its timestamp is appended, earlier votes kept, and the list is saved |
| App.Page.ShowCourseDetails | frontend/App.js:93-97 | the course is selected, the modal opens and the mobile menu closes |
| App.Page.CloseModal | frontend/App.js:99-102 | the modal closes and the selection is cleared |
| App.Page.HandleViewChange | frontend/App.js:105-113 | the view changes and the mobile menu closes |
| App.Page.ToggleMobileMenu | frontend/App.js:54-56 | the mobile menu flag flips |
| Lists.ToggleMembership | frontend/App.js:63-66 | after a toggle the value is present exactly when it was absent, and no other value changes membership |
| Lists.ToggleTwiceRestoresMembership | frontend/src/components/FilterBar.jsx:72-82 | toggling the same value twice restores every value's membership |
| Lists.ToggleTwiceAbsent | frontend/src/hooks/useCatalogue.js:147-157 | toggling an absent value twice gives the same list back |
| Lists.RemoveAll | frontend/App.js:65 | every occurrence removed, every other element kept |
| Lists.Filter | frontend/src/hooks/useCatalogue.js:222-224 | by membership, exactly the elements that pass, and no longer than the input; the order is kept, as `Lists.FilterAppend` proves |
| Lists.FilterAppend | frontend/App.js:118 | filtering keeps the order |
| Lists.ReplaceWhere | frontend/src/hooks/useCatalogue.js:185-191 | each matching element is replaced and the others stay in place |
| Text.PyStrip | Backend/autorization/autentification.py:26 | Python `str.strip()`: the Python whitespace characters removed from both ends |
| Text.JsTrim | frontend/src/pages/SuggestFormPage.jsx:35 | JavaScript `trim()`: the JavaScript whitespace characters removed from both ends |
| Text.ParseInt | frontend/src/hooks/usePrograms.js:107-108 | `parseInt` is NaN exactly when no digit follows the leading whitespace and sign |
| Text.ParseIntOfNatToString | frontend/src/hooks/usePrograms.js:107-108 | parsing a rendered count gives the count back |
| Text.NatToStringInjective | frontend/src/hooks/useFormSubmit.js:68 | different numbers render differently |
| Filters.Toggle | frontend/src/components/FilterBar.jsx:72-82 | the value becomes active in its category exactly when it was not; no other value and no other category changes, a missing category counting as [] |
| Filters.ToggleTwice | frontend/src/components/FilterBar.jsx:72-82 | pressing the same filter button twice restores which values are active in every category |
| Filters.Select | frontend/src/components/FilterBar.jsx:56-63 | the category holds the chosen values, or [] when the selection is null; nothing else changes |
| Filters.SetArchived | frontend/src/components/FilterBar.jsx:171-180 | `isArchived` becomes exactly the option's value and the lists are unchanged |
| Filters.ClearedHasNothingActive | frontend/src/components/AdminFilterSidebar.jsx:37-46 | after "Reject All" no value is active anywhere and `isArchived` is false |
| Filters.FilterState.constructor | frontend/src/components/AdminFilterSidebar.jsx:7-10 | the filters and view mode the parent holds |
| Filters.FilterState.ToggleFilter | frontend/src/components/AdminFilterSidebar.jsx:27-35 | the filters are toggled as `Toggle` states and the view mode is kept |
| Filters.FilterState.HandleSelectChange | frontend/src/components/AdminFilterSidebar.jsx:68-95 | the program or year select sets its list as `Select` states |
| Filters.FilterState.SetArchivedFilter | frontend/src/components/AdminFilterSidebar.jsx:157 | the status buttons set `isArchived` to the option's value |
| Filters.FilterState.HandleRejectAll | frontend/src/components/AdminFilterSidebar.jsx:37-46 | four empty lists, `isArchived` false and the compact view |
| Filters.FilterState.SetViewMode | frontend/src/components/AdminFilterSidebar.jsx:141 | only the view mode changes |
| Catalogue.ProgramString | frontend/src/hooks/useCatalogue.js:126-182 | `String(p)` gives a program name, and a name is left as it is |
| Catalogue.Normalize | frontend/src/hooks/useCatalogue.js:123-183 | years become the list or [] when missing, each program its string form, and every other field is kept |
| Catalogue.NormalizeIdempotent | frontend/src/hooks/useCatalogue.js:123-183 | normalising a normalised course changes nothing |
| Catalogue.ReplaceById | frontend/src/hooks/useCatalogue.js:189-191 | every course with the updated id is replaced and the others stay in place |
| Catalogue.RemoveById | frontend/src/hooks/useCatalogue.js:222-224 | exactly the courses with another id remain |
| Catalogue.RemoveByIdKeepsOrder | frontend/src/hooks/useCatalogue.js:222-224 | deleting keeps the survivors in order, and changes nothing when no id matches |
| Catalogue.ActiveFilters | frontend/src/hooks/useCatalogue.js:73-76 | a set type filter replaces `types` with that single type; the other categories are kept |
| Catalogue.ChooseQuery | frontend/src/hooks/useCatalogue.js:69-86 | the filter query runs exactly when some active category is non-empty, always when a type filter is set; otherwise all courses are fetched for the email, with the admin scope exactly when `isAdmin` holds of it |
| Catalogue.ProgramNames | frontend/src/components/AddCourseModal.jsx:227-230 | the selected program names as program references, in order |
| Catalogue.CatalogueState.constructor | frontend/src/hooks/useCatalogue.js:23-59 | no courses, not loading, no error, form hidden, the blank course |
| Catalogue.CatalogueState.LoadCourses | frontend/src/hooks/useCatalogue.js:66-99 | the returned list, or [] with the error's message (or "Failed to load courses"); loading ends |
| Catalogue.CatalogueState.StartEditingCourse | frontend/src/hooks/useCatalogue.js:109-131 | a course found locally, or else the fetched one, is normalised into the form and the form opens; when neither exists only the error is set |
| Catalogue.CatalogueState.StartAddingCourse | frontend/src/hooks/useCatalogue.js:137-140 | the blank course is opened |
| Catalogue.CatalogueState.HandleYearsChange | frontend/src/hooks/useCatalogue.js:147-157 | the year is removed when selected and appended otherwise; no other year changes |
| Catalogue.CatalogueState.HandleChange | frontend/src/hooks/useCatalogue.js:167-169 | only the named course field takes the value; an unknown name changes no course field |
| Catalogue.CatalogueState.HandleSubmit | frontend/src/hooks/useCatalogue.js:176-206 | the normalised course is sent; on failure only the error changes; on success a course with an id replaces its namesake, one without is appended, and the form resets, hides and clears the error |
| Catalogue.CatalogueState.HandleCancel | frontend/src/hooks/useCatalogue.js:211-215 | the blank course, form hidden, no error |
| Catalogue.CatalogueState.HandleDeleteCourse | frontend/src/hooks/useCatalogue.js:222-224 | every course with that id leaves the list, in order; nothing else changes |
| Programs.ParseCount | frontend/src/hooks/usePrograms.js:107-108 | `parseInt(field, 10)`: a number held by the form parses back to itself, and an absent field is NaN |
| Programs.ParseIntOfIntToString | frontend/src/hooks/usePrograms.js:107-108 | `parseInt(String(n), 10) == n` for every integer, negative ones included |
| Programs.MakePayload | frontend/src/hooks/usePrograms.js:105-109 | `student_group` is `shortName`, and `tech`/`hum` are `parseInt` of the two counts |
| Programs.FindProgram | frontend/src/hooks/usePrograms.js:76-149 | a program whose id or student group is the key, or none exactly when no program matches |
| Programs.EditForm | frontend/src/hooks/usePrograms.js:156-161 | the form holds the group, both counts and, when the record has one, its id |
| Programs.EditingRoundTrip | frontend/src/hooks/usePrograms.js:105-161 | editing a record and saving it unchanged sends back its own group and counts, and takes the edit path exactly when its id is truthy |
| Programs.ReplaceById | frontend/src/hooks/usePrograms.js:113-115 | every program with the updated id is replaced and the others stay in place |
| Programs.RemoveById | frontend/src/hooks/usePrograms.js:87 | exactly the programs with another id remain |
| Programs.ProgramsState.constructor | frontend/src/hooks/usePrograms.js:19-29 | no programs, the initial form, modal hidden, no error |
| Programs.ProgramsState.LoadPrograms | frontend/src/hooks/usePrograms.js:49-61 | the rows (`data || []`), or [] when the query fails |
| Programs.ProgramsState.HandleProgramChange | frontend/src/hooks/usePrograms.js:36-41 | the named field takes the value, whatever the name, and no other field changes |
| Programs.ProgramsState.HandleDeleteProgram | frontend/src/hooks/usePrograms.js:73-92 | nothing changes when no program matches by id or group; otherwise every program with the found one's id is removed |
| Programs.ProgramsState.HandleProgramSubmit | frontend/src/hooks/usePrograms.js:101-130 | the payload is sent; with a truthy id the saved record replaces its namesake, without one it is appended; success resets the form, hides the modal and clears the error, failure only sets the error |
| Programs.ProgramsState.ApplySaved | frontend/src/hooks/usePrograms.js:111-128 | after the save call: on success a truthy id replaces every program of that id by the saved record, otherwise the record is appended, and the form is reset and hidden with no error; on failure only the error is set |
| Programs.ProgramsState.HandleProgramCancel | frontend/src/hooks/usePrograms.js:135-139 | the initial form, modal hidden, no error |
| Programs.ProgramsState.StartEditingProgram | frontend/src/hooks/usePrograms.js:146-164 | the found record, id included, fills the form and the modal opens; nothing changes when none matches |
| CourseTile.EscapeRegExp | frontend/src/components/CompactCourseTile.jsx:32-34 | a backslash is put before each of `.*+?^${}()\|[]\` and every other character stays as it is, so the length grows by the number of special characters |
| CourseTile.Unescape | frontend/src/components/CompactCourseTile.jsx:18 | a reference reading of a pattern: a backslash stands for the character after it |
| CourseTile.UnescapeEscape | frontend/src/components/CompactCourseTile.jsx:18-33 | the escaped pattern stands for exactly the query |
| CourseTile.EscapeInjective | frontend/src/components/CompactCourseTile.jsx:33 | different queries give different patterns |
| CourseTile.EscapePlain | frontend/src/components/CompactCourseTile.jsx:33 | a query without special characters is its own pattern |
| CourseTile.EscapedSpecialsArePreceded | frontend/src/components/CompactCourseTile.jsx:33 | every special character in the pattern other than a backslash sits behind a backslash |
| CourseTile.HighlightText | frontend/src/components/CompactCourseTile.jsx:15-18 | the text comes back unchanged exactly when the query is missing or shorter than 3 or the text is empty; otherwise the text is split on the group `(` + escaped query + `)`, which stands for the query |
| CourseModal.Failures | frontend/src/components/AddCourseModal.jsx:143-155 | at most three messages, and none exactly when a language, a program and a year are all given |
| CourseModal.HandleFormSubmit | frontend/src/components/AddCourseModal.jsx:140-158 | submits exactly when language, programs and years are all given; otherwise the language alert when the language is empty (144-147), the program alert when the language is set and the program list is missing or empty (148-151), the year alert when only the years are missing or empty (152-155) |
| CourseModal.FirstFailureShown | frontend/src/components/AddCourseModal.jsx:143-155 | an alert is shown exactly when some check fails, and it is the first failing check's message |
| CourseModal.Respond | frontend/src/components/AddCourseModal.jsx:66-158 | Escape and only Escape cancels, other keys are ignored, and a submit gives the modal's own guard result; the student program modal (`AddStudentProgramModal.jsx:57-97`) answers the same way with its own guard |
| CourseModal.InitialCourseNeedsProgram | frontend/src/components/AddCourseModal.jsx:148-155 | the blank course, whose language defaults to "Rus", is refused for its programs and also lacks years |
| CourseModal.AddingYearAllowsSubmit | frontend/src/components/AddCourseModal.jsx:152-157 | with language and programs set and no years, ticking a year turns the year alert into a submit |
| ProgramModal.HandleFormSubmit | frontend/src/components/AddStudentProgramModal.jsx:89-97 | submits exactly when stage, year and short name are all truthy, and otherwise gives the one "fill all required fields" alert (92-95) |
| ProgramModal.GuardIgnoresOtherFields | frontend/src/components/AddStudentProgramModal.jsx:92-96 | changing any field other than stage, year and short name never changes the guard's answer |
| ProgramModal.PressStage | frontend/src/components/AddStudentProgramModal.jsx:108-116 | a stage button sets the stage to one of B, M, P, which is truthy, and leaves every other field as it was |
| ProgramModal.FreshFormsAreRefused | frontend/src/components/AddStudentProgramModal.jsx:92-95 | neither the blank program form nor the form filled for editing passes the guard, as neither holds a stage |
| ProgramModal.StageYearNameSuffice | frontend/src/components/AddStudentProgramModal.jsx:92-116 | pressing a stage button and giving a truthy year and a non-empty short name is enough to submit, whatever else the form holds |
| Semesters.DraftOf | frontend/src/components/SemesterForm.jsx:79-89 | the draft object the persisting effect writes: term under the editor's own key, year, programs, courses, deadline and the active flag; read back by `RestoreDraft` |
| Semesters.Restore | frontend/src/components/SemesterForm.jsx:28-35 | each field is the draft's value when it has the written type (term and year only when truthy), else 'Fall', the current year, empty lists, "" and false |
| Semesters.RestoreDraft | frontend/src/components/SemesterForm.jsx:28-89 | a draft read back by the editor that wrote it restores the form exactly when term and year are truthy |
| Semesters.DraftTermNotShared | frontend/src/pages/AdminSemesterPage.jsx:37-50 | the page, reading a draft the form component wrote under `season`, shows 'Fall' whatever term was saved |
| Semesters.DateOnly | frontend/src/components/SemesterForm.jsx:59 | a null deadline gives ""; otherwise a prefix of the deadline without 'T', followed in it by a 'T' when it has one, and the whole deadline when it has none |
| Semesters.BeforeT | frontend/src/components/SemesterForm.jsx:59 | the longest prefix without 'T' |
| Semesters.DateOnlyOfDateTime | frontend/src/components/SemesterForm.jsx:59 | a date, 'T' and any time are cut back to the date |
| Semesters.Ready | frontend/src/components/SemesterForm.jsx:134-136 | the save guard: term, year, a program, a course and a deadline all given |
| Semesters.Settle | frontend/src/components/SemesterForm.jsx:67-76 | with no program selected the course selection is cleared; nothing else changes |
| Semesters.FromRow | frontend/src/components/SemesterForm.jsx:53-60 | a loaded record fills every field, the deadline cut to its date |
| SemesterFormComponent.ApplyLatest | frontend/src/components/SemesterForm.jsx:92-112 | the season stays; with a latest record of that season every other field is taken from it (103-107), and without one nothing changes |
| SemesterFormComponent.LoadAsWritten | frontend/src/components/SemesterForm.jsx:49-65 | loading by id as written: the loaded record, replaced by the latest record of its season when the season changes |
| SemesterFormComponent.LoadByIdCanShowAnotherSemester | frontend/src/components/SemesterForm.jsx:49-112 | as written, loading a record whose season differs from the shown one ends with another record of that season on the form |
| SemesterFormComponent.LoadIntended | frontend/src/components/SemesterForm.jsx:49-65 | the form shows exactly the loaded record, and agrees with the code as written whenever the season does not change |
| SemesterFormComponent.FindById | frontend/src/components/SemesterForm.jsx:198 | `availableCourses.find(x => x.id === id)`: none exactly when no offered course has the id, otherwise the first one that does |
| SemesterFormComponent.SelectedOptions | frontend/src/components/SemesterForm.jsx:196-201 | only offered courses are shown, each for a selected id, no more than are selected, and every selected offered id is shown |
| SemesterFormComponent.SelectedOptionsAppend | frontend/src/components/SemesterForm.jsx:196-201 | the display keeps the selection's order: it distributes over concatenating selections |
| SemesterFormComponent.SelectedOptionsSingle | frontend/src/components/SemesterForm.jsx:196-201 | one selected id shows the first offered course with that id, or nothing when none is offered |
| SemesterFormComponent.AllOfferedAllShown | frontend/src/components/SemesterForm.jsx:196-201 | when every selection is an offered id, none is dropped |
| SemesterFormComponent.Form.constructor | frontend/src/components/SemesterForm.jsx:28-89 | the fields come from the stored draft, the programs effect runs, and the draft is written back |
| SemesterFormComponent.Form.Commit | frontend/src/components/SemesterForm.jsx:67-89 | the programs effect clears courses and offered courses with no program, otherwise takes the fetched courses; the draft mirrors the new fields |
| SemesterFormComponent.Form.SetSeason | frontend/src/components/SemesterForm.jsx:92-159 | the same season changes nothing; another is set and the latest record of it fills the other fields |
| SemesterFormComponent.Form.LoadSemester | frontend/src/components/SemesterForm.jsx:49-65 | the form shows the loaded record, with the programs effect applied |
| SemesterFormComponent.Form.SetYear | frontend/src/components/SemesterForm.jsx:79-173 | only the year changes, and the draft follows |
| SemesterFormComponent.Form.SetDeadline | frontend/src/components/SemesterForm.jsx:79-212 | only the deadline changes, and the draft follows |
| SemesterFormComponent.Form.SetPrograms | frontend/src/components/SemesterForm.jsx:67-185 | an empty selection clears selected and offered courses; otherwise the courses stay and the fetched ones are offered |
| SemesterFormComponent.Form.SetCourses | frontend/src/components/SemesterForm.jsx:195-202 | the selection becomes the picked ids, each one offered, and nothing else changes |
| SemesterFormComponent.Form.HandleToggleActive | frontend/src/components/SemesterForm.jsx:115-129 | the record goes out with the flag inverted, and the flag flips only when that save succeeds |
| SemesterFormComponent.Form.HandleSave | frontend/src/components/SemesterForm.jsx:132-150 | the form is sent exactly when it is complete (134), and the draft is removed only on a successful save (146) |
| AdminSemesterPage.ApplyExisting | frontend/src/pages/AdminSemesterPage.jsx:128-134 | term and year stay; a record the user chose to load brings programs, courses, date and flag, and without one nothing changes |
| AdminSemesterPage.Page.constructor | frontend/src/pages/AdminSemesterPage.jsx:37-50 | the fields come from the stored draft under `semester`, the programs effect runs, and the draft is written back |
| AdminSemesterPage.Page.Commit | frontend/src/pages/AdminSemesterPage.jsx:69-100 | the programs effect clears courses and offered courses with no program, otherwise takes the fetched courses; the draft mirrors the new fields |
| AdminSemesterPage.Page.SetSemester | frontend/src/pages/AdminSemesterPage.jsx:106-209 | the same term changes nothing; another is set and the record saved for it and the year may be loaded |
| AdminSemesterPage.Page.SetYear | frontend/src/pages/AdminSemesterPage.jsx:106-224 | the same year changes nothing; another is set and the record saved for it and the term may be loaded |
| AdminSemesterPage.Page.SetDeadline | frontend/src/pages/AdminSemesterPage.jsx:83-256 | only the deadline changes, and the draft follows |
| AdminSemesterPage.Page.SetPrograms | frontend/src/pages/AdminSemesterPage.jsx:69-234 | an empty selection clears selected and offered courses; otherwise the courses stay and the fetched ones are offered |
| AdminSemesterPage.Page.SetCourses | frontend/src/pages/AdminSemesterPage.jsx:242-247 | the selection becomes the picked titles, in order, whether or not each is still offered (the select's value lists every selected title, 246-247), and nothing else changes |
| AdminSemesterPage.Page.HandleToggleActive | frontend/src/pages/AdminSemesterPage.jsx:145-162 | the record goes out with the flag inverted, the flag flips only when the save succeeds, and the alert names the new state or the failure |
| AdminSemesterPage.Page.HandleSave | frontend/src/pages/AdminSemesterPage.jsx:169-199 | an incomplete form is refused with the fill-in alert (173-182); a complete one is sent as it is and the draft is removed only on success (193) |
| SuggestForm.NewSuggestion | frontend/src/pages/SuggestFormPage.jsx:82-93 | the course fields as the form holds them, the name as creator, neither archived nor declined |
| SuggestForm.ClearAsWritten | frontend/src/pages/SuggestFormPage.jsx:45-55 | the clearing calls as written change no course field |
| SuggestForm.ClearAsWrittenKeepsDefaults | frontend/src/pages/SuggestFormPage.jsx:45-55 | as written, the suggestion form opens with the blank course's language "Rus" and type "tech" |
| SuggestForm.ClearIntended | frontend/src/pages/SuggestFormPage.jsx:45-55 | every text field, the type and both lists start empty; the id stays |
| SuggestForm.ClearedNeedsLanguage | frontend/src/pages/SuggestFormPage.jsx:45-55 | the cleared form has no language, where the form as written has one |
| SuggestForm.Page.constructor | frontend/src/pages/SuggestFormPage.jsx:14-17 | step 1, no message, no name, no token |
| SuggestForm.Page.SetFullName | frontend/src/pages/SuggestFormPage.jsx:138 | only the name changes |
| SuggestForm.Page.HandleRecaptchaChange | frontend/src/pages/SuggestFormPage.jsx:30-146 | only the token changes |
| SuggestForm.Page.HandleContinue | frontend/src/pages/SuggestFormPage.jsx:34-66 | a name blank once trimmed keeps step 1 with the name message (35-38); then a missing token keeps it with the captcha message (39-42); otherwise the message clears, a blank cleared course is opened and step 2 begins (43-57) |
| SuggestForm.SubmitOutcomeOf | frontend/src/pages/SuggestFormPage.jsx:103-114 | an insert error gives the failure notice; a successful insert throws exactly when `setCourses` is not a function, and otherwise completes with the success notice |
| SuggestForm.SubmitAsWritten | frontend/src/pages/SuggestFormPage.jsx:103-114 | as written, every successful insert throws, since the catalogue hook returns no `setCourses` (`useCatalogue.js:226-244`); a failed one gives the failure notice |
| SuggestForm.SubmitIntended | frontend/src/pages/SuggestFormPage.jsx:103-114 | as intended, every successful insert completes with the success notice; a failed one gives the failure notice |
| SuggestForm.SubmitNeverCompletesAsWritten | frontend/src/pages/SuggestFormPage.jsx:103-114 | no insert outcome completes the handler as written; the two readings differ on every successful insert and agree on every failed one |
| SuggestForm.Page.HandleSubmitAsWritten | frontend/src/pages/SuggestFormPage.jsx:81-115 | as written: the suggestion sent is built from the form and the name, nothing on the page or in the catalogue changes, and the handler throws exactly when the insert succeeded |
| SuggestForm.Page.HandleSubmit | frontend/src/pages/SuggestFormPage.jsx:81-115 | as intended: the suggestion sent is built from the form and the name; on success the inserted rows join the list, the form closes and step 1 starts over with no name and no token (103-110) and the success notice is the outcome; on an error only the failure notice is (111-114) |
| SuggestForm.Page.HandleModalCancel | frontend/src/pages/SuggestFormPage.jsx:118-126 | the form closes and step 1 starts over with no message, name or token |
| SuggestedCourses.AsArray | frontend/src/api/function_for_suggested_courses.js:41-49 | an array stays as it is, anything else becomes the one-element array holding it |
| SuggestedCourses.AsArrayIdempotent | frontend/src/api/function_for_suggested_courses.js:41-49 | wrapping twice is wrapping once |
| SuggestedCourses.ProcessFields | frontend/src/api/function_for_suggested_courses.js:41-49 | the given keys plus `years` and `program`, both made arrays, every other field as given |
| SuggestedCourses.UpdateWithoutYearsWritesIt | frontend/src/api/function_for_suggested_courses.js:41-49 | an update that does not mention `years` still writes it, as an array holding undefined |
| SuggestedCourses.AcceptedCourse | frontend/src/api/function_for_suggested_courses.js:78-87 | exactly the seven carried fields and `archived` false, the two lists made arrays |
| SuggestedCourses.UpdateWhere | frontend/src/api/function_for_suggested_courses.js:51-54 | every row with the id takes the fields, the others stay, and the table keeps its length |
| SuggestedCourses.DeleteWhere | frontend/src/api/function_for_suggested_courses.js:98-102 | a row remains exactly when it was there and has another id |
| SuggestedCourses.DeclineThenRecover | frontend/src/api/function_for_suggested_courses.js:115-143 | declining then recovering leaves every row of that id with the flag false |
| SuggestedCourses.DeleteResultAsWritten | frontend/src/api/function_for_suggested_courses.js:145-157 | the result as written: `null` whatever the delete did |
| SuggestedCourses.DeleteResultHidesOutcome | frontend/src/api/function_for_suggested_courses.js:145-157 | as written, a successful delete and a failed one give the caller the same result |
| SuggestedCourses.DeleteResult | frontend/src/api/function_for_suggested_courses.js:145-157 | the data exactly when the delete succeeds, null on an error |
| SuggestedCourses.Tables.UpdateSuggestedCourse | frontend/src/api/function_for_suggested_courses.js:35-63 | a falsy id is refused with "Course ID is required" (36-38); an error changes nothing; otherwise the processed fields go to every row of that id and a row comes back exactly when one had that id |
| SuggestedCourses.Tables.AcceptSuggestedCourse | frontend/src/api/function_for_suggested_courses.js:66-113 | the course is inserted first (89-96); an insert error changes nothing; only after it succeeds is the suggestion deleted (98-106), and a delete error leaves it in both tables |
| SuggestedCourses.Tables.DeclineSuggestedCourse | frontend/src/api/function_for_suggested_courses.js:115-128 | on success every row of that id is declined (119) and the data returned; on an error nothing changes and null is returned |
| SuggestedCourses.Tables.RecoverSuggestedCourse | frontend/src/api/function_for_suggested_courses.js:130-143 | on success every row of that id is no longer declined (134); on an error nothing changes and null is returned |
| SuggestedCourses.Tables.DeleteDeclinedCourse | frontend/src/api/function_for_suggested_courses.js:145-157 | a successful delete removes every row of that id; the result is the intended one, the data on success |

## Left out

- Network I/O: every Supabase query wrapper (`functions_for_courses.js`, `functions_for_programs.js`, `functions_for_users.js`, `functions_for_semesters.js`, `functions_for_deadline.js`, `func_for_latest_information_on_selected_courses.js`, `utils/courseApi.js`) and the async `isAdmin`/`isStudent` checks in `hooks/validation.js`. Their results are success or failure outcomes passed in. The order-preserving dedup of program names at `functions_for_courses.js:111-113` is not modelled either.
- `fetchSuggestedCourses` and `fetchDeclinedCourses` (`function_for_suggested_courses.js:4-32`) are filtered, ordered reads of the database, so they stay outside the model too.
- `function_for_search.js` is left out. It depends on the fuzzy scoring of the Fuse library and a floating-point threshold.
- Timers and intervals are left out: `setupDeadlineWatcher`, the AccessDenied countdown, the debounced searches and the `setTimeout(…, 0)` in the suggestion wizard. Each effect runs to completion inside the handler that triggers it, so the interleaving of asynchronous calls and renders is not represented.
- Dates are not modelled: no `Date` parsing, `toLocaleString`, `toISOString` timestamps or `Date.now()`. Times are integer milliseconds passed in, and a deadline that does not parse (NaN arithmetic) is not represented.
- `Number()` coercion of the `years` values and JavaScript's floating-point `Math.floor` are read on integers only.
- The randomness of `random.choices` is modelled as any six-digit code.
- The ExcelJS workbook, the Blob and the download link are left out; only the rows and the legend are computed.
- Django plumbing is left out: `JsonResponse`, `csrf_exempt`, `print`, the URL configuration and the HTTP statuses. Every error path gives the one "ERROR" value.
- Rendering, scrolling, the textarea resize, toasts, `console` logging and every component or page that only renders are left out.
- CourseTile.HighlightText: the split and the per-part test with the global regular expression are left out, because that test keeps `lastIndex` state between calls. The model stops at the guard and the pattern.
- Lengths are counted in characters, not UTF-16 code units, and `ExcelExport.Less` compares code points where `sort()` compares UTF-16 code units; the two orders differ only for characters outside the Basic Multilingual Plane.
- Text.LowerChar and Text.Lower: Python's `str.lower()` is modelled only for the ASCII, Latin-1 (except U+00D7) and Cyrillic capitals U+0400-U+042F; every other character is kept, so Greek, Latin Extended-A and signs such as the Kelvin sign are not lowered. `str.lower()` turns U+0130 into two characters, and `Lower` keeps the length. `BackendAuth.Normalize`, `BackendAuth.IsUniversityEmail` and the lemmas about them inherit this.
- `verify_code` as written cannot run: it lacks the `request` parameter and uses an unimported `UserRole`. It is modelled as its body evidently means. `UserRole.verification_code` is read there but never written by `send_code`, and the model keeps that as it is.
- Catalogue.HandleChange: the generic `[name]: value` update writes any key into the course object. The typed course record keeps only its own fields, so a name outside them changes nothing in the model.
- Semesters.Restore: a draft field stored with another type than the editor writes (a year saved as text, say) reads as absent.
- AdminSemesterPage.ApplyExisting: `is_active` is read as a boolean; a null flag from the database is not represented. The existence check, the confirmation dialog and the fetch are folded into one optional loaded record.
- `handleDeleteProgram` in `usePrograms.js:85` passes `found.title`, which a program record does not have, to `deleteProgram`. The database row is therefore not deleted, while the local list is filtered. The model keeps only the local list.
- VotingForm.IsPriorityAvailable: the `priority === ''` part of `isPriorityAvailable` is not modelled, because the priorities offered are numbers.
- App: the vote timestamp is passed in.
- BackendAuth.Database.SendCode: its `role` is the intended `ResolveRole`, not the `RoleAsWritten` that lines 33-36 compute with the `or` chain; the two differ for emails that start with one of the six prefixes after the first (see Findings).
- BackendAuth.Database.SendCode: answers `InternalError` for a normalised email over 254 characters; this models a database that enforces `EmailCode.email`'s `max_length` and rejects the insert. The database settings are not part of this model, and a database that does not enforce the length would store the row instead.
- SuggestForm.Page.HandleSubmit: it models the intended success path; as written the call to the missing `setCourses` throws first, which `SuggestForm.Page.HandleSubmitAsWritten` keeps (see Findings).
- SuggestForm.Page.HandleContinue: it opens the cleared course as intended (`ClearIntended`), not the unchanged course the clearing calls leave as written (see Findings).
- SemesterFormComponent.Form.LoadSemester: it loads the record as intended (`LoadIntended`), not the record the season effect then loads over it as written (see Findings).
- SuggestedCourses.Tables.DeleteDeclinedCourse: it returns the intended result (`DeleteResult`), not the `null` the code as written always returns (see Findings).

## Findings

| source | as written | input that shows it | evidently intended | confidence | as-written member | corrected member |
|---|---|---|---|---|---|---|
| Backend/autorization/autentification.py:33 | `startswith("a.potyomkin" or "m.karpova" or …)` evaluates the `or` chain first, so only the first prefix is tested | "m.karpova@innopolis.university" gets the student role | an admin is any email that starts with one of the seven listed prefixes | high, not executed | BackendAuth.RoleAsWritten | BackendAuth.ResolveRole |
| frontend/src/components/ProtectedRoute.jsx:28 | `requireAdmin && role == 'admin'` redirects admins away from admin-only routes | role "admin" with `requireAdmin` true is redirected, and role "student" is shown the page | redirect to the catalogue when the route requires an admin and the role is not admin (comment at line 27); the student catalogue, since the admin catalogue is itself admin-only | high, not executed | ProtectedRoute.DecisionAsWritten | ProtectedRoute.Guard |
| frontend/src/api/function_for_suggested_courses.js:151 | `if (err)` names an undeclared variable; the ReferenceError is caught and `null` is returned | any successful delete returns null, like a failed one | `if (error) throw error; return data;` | high, not executed | SuggestedCourses.DeleteResultAsWritten | SuggestedCourses.DeleteResult |
| frontend/src/components/SemesterForm.jsx:49-65 | loading by `semesterId` sets the season, and the season effect (92-112) then loads the latest record of that season over it | a `semesterId` whose season differs from the draft's, while another record of that season exists | the form shows the record that was asked for | medium, not executed | SemesterFormComponent.LoadAsWritten | SemesterFormComponent.LoadIntended |
| frontend/src/pages/SuggestFormPage.jsx:45-55 | `handleChange('title', '')` passes two arguments to a handler that takes one `{name, value}` object (`useCatalogue.js:167-169`), so no course field is cleared | pressing Next with the blank course leaves language "Rus" and type "tech" chosen | every course field of the suggestion starts empty | high, not executed | SuggestForm.ClearAsWritten | SuggestForm.ClearIntended |
| frontend/src/pages/SuggestFormPage.jsx:104 | `setCourses` is destructured from the catalogue context (line 24), but the catalogue hook does not return it (`useCatalogue.js:226-244`), so calling it throws a TypeError and the async handler stops before the notice and the resets | any insert that succeeds: the row is stored, the page stays on step 2 with the same form, and another submit stores it again | the new rows join the list, a success notice, the form closes and step 1 starts over | high, not executed | SuggestForm.SubmitAsWritten | SuggestForm.SubmitIntended |
