/**
 * The two Django records of the login back end (MakeYourChoice/models.py):
 * `UserRole`, one row per email with its role and a verification code, and
 * `EmailCode`, one row per issued code. Field limits are the models' own.
 */
module Models {
  import opened Wrappers

  /** Django's default `max_length` for an `EmailField`. */
  const EmailMaxLength := 254
  /** `role = CharField(max_length=10, choices=...)`. */
  const RoleMaxLength := 10
  /** `verification_code` and `code` are `CharField(max_length=6)`. */
  const CodeMaxLength := 6

  /** The two choices of `UserRole.role`. */
  datatype Role = Student | Admin {
    /** The value stored in the `role` column. */
    function Value(): (v: string)
      ensures 0 < |v| <= RoleMaxLength
    {
      match this
      case Student => "student"
      case Admin => "admin"
    }
  }

  /** Reads a stored `role` column back; only the two choice values are roles. */
  function RoleOfValue(v: string): (r: Option<Role>)
    ensures r.Some? <==> v == "student" || v == "admin"
    ensures r.Some? ==> r.value.Value() == v
  {
    if v == "student" then Some(Student) else if v == "admin" then Some(Admin) else None
  }

  /** Storing a role and reading it back gives the same role. */
  lemma RoleValueRoundTrip(r: Role)
    ensures RoleOfValue(r.Value()) == Some(r)
  {
  }

  datatype UserRole = UserRole(email: string, role: Role, verificationCode: string)

  /** One issued code; `createdAt` is the creation time in milliseconds (`auto_now_add`). */
  datatype EmailCode = EmailCode(email: string, code: string, createdAt: int)

  /** Column limits of a `UserRole` row; a blank verification code is allowed. */
  predicate ValidUserRole(u: UserRole) {
    |u.email| <= EmailMaxLength && |u.verificationCode| <= CodeMaxLength
  }

  predicate ValidEmailCode(e: EmailCode) {
    |e.email| <= EmailMaxLength && |e.code| <= CodeMaxLength
  }

  /** The `UserRole` table: valid rows, and `email` is unique. */
  predicate ValidUserRoles(rows: seq<UserRole>) {
    && (forall i :: 0 <= i < |rows| ==> ValidUserRole(rows[i]))
    && (forall i, j :: 0 <= i < j < |rows| ==> rows[i].email != rows[j].email)
  }

  /** The `EmailCode` table: valid rows; `email` is not unique, so an email may have many codes. */
  predicate ValidEmailCodes(rows: seq<EmailCode>) {
    forall i :: 0 <= i < |rows| ==> ValidEmailCode(rows[i])
  }
}
