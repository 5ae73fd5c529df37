/**
 * The login form's handler (frontend/src/hooks/useLogin.js): it clears the
 * error, refuses an email outside the university domain, and otherwise logs
 * in as 'admin' or 'student' and navigates to the catalogue.
 */
module UseLogin {
  import opened Wrappers
  import opened Validation
  import AuthContext

  const DomainError := "Email must be from innopolis.university"
  const CataloguePath := "/catalogue"

  /** The role `handleLogin` passes to `loginAs` for an accepted email. */
  function LoginRole(email: string): (r: string)
    ensures r == "admin" <==> IsAdmin(email)
    ensures r == "admin" || r == "student"
  {
    if IsAdmin(email) then "admin" else "student"
  }

  class LoginForm {
    var email: string
    var error: string
    /** The paths passed to `navigate`, oldest first. */
    var navigations: seq<string>

    constructor ()
      ensures email == "" && error == "" && navigations == []
    {
      email, error, navigations := "", "", [];
    }

    method SetEmail(value: string)
      modifies this
      ensures email == value && error == old(error) && navigations == old(navigations)
    {
      email := value;
    }

    /** `handleLogin`. */
    method HandleLogin(auth: AuthContext.AuthStore)
      modifies this, auth
      ensures email == old(email)
      ensures !IsInnopolisEmail(email) ==>
        && error == DomainError
        && navigations == old(navigations)
        && auth.role == old(auth.role) && auth.email == old(auth.email) && auth.storage == old(auth.storage)
      ensures IsInnopolisEmail(email) ==>
        && error == ""
        && auth.Valid()
        && auth.role == Some(LoginRole(email)) && auth.email == email
        && auth.storage == AuthContext.Synchronize(old(auth.storage), Some(LoginRole(email)), email)
        && navigations == old(navigations) + [CataloguePath]
    {
      error := "";
      if !IsInnopolisEmail(email) {
        error := DomainError;
        return;
      }
      var role := LoginRole(email);
      auth.LoginAs(Some(role), email);
      navigations := navigations + [CataloguePath];
    }
  }

  /** A successful login always leaves a truthy role, which the route guard lets past its first test. */
  lemma LoginRoleIsTruthy(email: string)
    ensures AuthContext.Truthy(Some(LoginRole(email)))
  {
  }
}
