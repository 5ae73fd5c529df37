/**
 * The route guard (frontend/src/components/ProtectedRoute.jsx): without a
 * role it redirects to the login page; with `requireAdmin` it is meant to
 * turn non-administrators away to the catalogue.
 */
module ProtectedRoute {
  import opened Wrappers
  import AuthContext

  datatype Outcome = Redirect(to: string) | RenderElement

  const LoginPath := "/"
  const AdminCataloguePath := "/admin-catalogue"
  const StudentCataloguePath := "/student-catalogue"

  /**
   * The guard as written: its second test sends an administrator away
   * when the route requires one (`role == 'admin'` where the comment above
   * it describes a non-administrator).
   */
  function DecisionAsWritten(role: Option<string>, requireAdmin: bool): (d: Outcome)
    ensures !AuthContext.Truthy(role) ==> d == Redirect(LoginPath)
    ensures d == RenderElement <==> AuthContext.Truthy(role) && !(requireAdmin && role.value == "admin")
  {
    if !AuthContext.Truthy(role) then Redirect(LoginPath)
    else if requireAdmin && role.value == "admin" then Redirect(AdminCataloguePath)
    else RenderElement
  }

  /** As written, an administrator is never shown an admin-only route, and a student always is. */
  lemma AdminOnlyRouteInverted()
    ensures DecisionAsWritten(Some("admin"), true) == Redirect(AdminCataloguePath)
    ensures DecisionAsWritten(Some("student"), true) == RenderElement
  {
  }

  /**
   * The guard its comment describes: a route requiring an administrator
   * turns everyone else away to the catalogue. The redirect target is the
   * student catalogue, since the admin catalogue is itself an admin-only
   * route and sending a student there would only repeat the redirect.
   */
  function Guard(role: Option<string>, requireAdmin: bool): (d: Outcome)
    ensures !AuthContext.Truthy(role) ==> d == Redirect(LoginPath)
    ensures d == RenderElement <==> AuthContext.Truthy(role) && (!requireAdmin || role.value == "admin")
    ensures d.Redirect? ==> d.to != AdminCataloguePath
  {
    if !AuthContext.Truthy(role) then Redirect(LoginPath)
    else if requireAdmin && role.value != "admin" then Redirect(StudentCataloguePath)
    else RenderElement
  }

  /** With the default `requireAdmin = false` both guards agree: any truthy role sees the element. */
  lemma DefaultGuardAgrees(role: Option<string>)
    ensures DecisionAsWritten(role, false) == Guard(role, false)
    ensures DecisionAsWritten(role, false) == RenderElement <==> AuthContext.Truthy(role)
  {
  }

  /** On an admin-only route the two guards disagree on every logged-in user. */
  lemma GuardsDisagreeOnAdminRoutes(role: Option<string>)
    requires AuthContext.Truthy(role)
    ensures DecisionAsWritten(role, true) != Guard(role, true)
  {
  }
}
