/**
 * The front end's two email predicates (frontend/src/utils/validation.js),
 * and how they relate to the back end's domain test.
 */
module Validation {
  import opened Text
  import BackendAuth

  const AdminEmail := "admin@innopolis.university"

  /** `isInnopolisEmail`: a case-sensitive suffix test, with no trimming. */
  predicate IsInnopolisEmail(email: string) {
    EndsWith(email, BackendAuth.UniversityDomain)
  }

  /** `isAdmin`: exactly the one administrator address. */
  predicate IsAdmin(email: string) {
    email == AdminEmail
  }

  /** The administrator address is itself a university address. */
  lemma AdminIsInnopolis(email: string)
    requires IsAdmin(email)
    ensures IsInnopolisEmail(email)
  {
    assert email[|email| - |BackendAuth.UniversityDomain|..] == BackendAuth.UniversityDomain;
  }

  /** Every email the front end accepts, the back end accepts too. */
  lemma FrontAcceptanceImpliesBackAcceptance(email: string)
    requires IsInnopolisEmail(email)
    ensures BackendAuth.IsUniversityEmail(email)
  {
    var d := BackendAuth.UniversityDomain;
    assert IsLowerCase(d) by {
      forall i | 0 <= i < |d| ensures LowerChar(d[i]) == d[i] {
        assert d[i] == '@' || d[i] == '.' || 'a' <= d[i] <= 'z';
      }
    }
    LowerKeepsLowerSuffix(email, d);
  }

  /** An upper-case domain: the back end accepts it, the front end does not. */
  lemma UpperCaseDomainOnlyOnBackEnd()
    ensures !IsInnopolisEmail("x@INNOPOLIS.UNIVERSITY")
    ensures BackendAuth.IsUniversityEmail("x@INNOPOLIS.UNIVERSITY")
  {
    var e := "x@INNOPOLIS.UNIVERSITY";
    var d := BackendAuth.UniversityDomain;
    assert e[|e| - 1] != d[|d| - 1];
    var l := Lower(e);
    forall i | 0 <= i < |d| ensures l[1..][i] == d[i] {
      assert l[i + 1] == LowerChar(e[i + 1]);
    }
    assert l[1..] == d;
  }
}
