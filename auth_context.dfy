/**
 * The front end's authentication store (frontend/src/context/AuthContext.jsx):
 * a `role` (null or a string) and an `email`, read from localStorage when the
 * provider mounts and written back by two effects whenever they change.
 */
module AuthContext {
  import opened Wrappers

  const RoleKey := "role"
  const EmailKey := "email"

  /** JavaScript truthiness of the `role` state: not null and not the empty string. */
  predicate Truthy(role: Option<string>) {
    role.Some? && role.value != ""
  }

  /** `localStorage.getItem('role') || null`. */
  function StoredRole(storage: map<string, string>): (r: Option<string>)
    ensures r.Some? <==> RoleKey in storage && storage[RoleKey] != ""
    ensures r.Some? ==> r.value == storage[RoleKey]
  {
    if RoleKey in storage && storage[RoleKey] != "" then Some(storage[RoleKey]) else None
  }

  /** `localStorage.getItem('email') || ''`. */
  function StoredEmail(storage: map<string, string>): (e: string)
    ensures EmailKey !in storage ==> e == ""
    ensures e != "" ==> EmailKey in storage && storage[EmailKey] == e
  {
    if EmailKey in storage then storage[EmailKey] else ""
  }

  /** The storage holds `role` exactly when it is truthy, and `email` exactly when it is non-empty. */
  predicate SyncedWith(role: Option<string>, email: string, storage: map<string, string>) {
    && (RoleKey in storage <==> Truthy(role))
    && (Truthy(role) ==> storage[RoleKey] == role.value)
    && (EmailKey in storage <==> email != "")
    && (email != "" ==> storage[EmailKey] == email)
  }

  /** What the two effects leave in storage: set or remove `role`, then set or remove `email`. */
  function Synchronize(storage: map<string, string>, role: Option<string>, email: string): (r: map<string, string>)
    ensures SyncedWith(role, email, r)
    ensures forall k :: k in r && k != RoleKey && k != EmailKey ==> k in storage && r[k] == storage[k]
    ensures forall k :: k in storage && k != RoleKey && k != EmailKey ==> k in r && r[k] == storage[k]
  {
    var afterRole := if Truthy(role) then storage[RoleKey := role.value] else storage - {RoleKey};
    if email != "" then afterRole[EmailKey := email] else afterRole - {EmailKey}
  }

  /**
   * Storage written by the effects reads back as the same state when the
   * provider mounts again, except that a falsy role comes back as null.
   */
  lemma ReloadRestoresState(role: Option<string>, email: string, storage: map<string, string>)
    requires SyncedWith(role, email, storage)
    ensures StoredRole(storage) == (if Truthy(role) then role else None)
    ensures StoredEmail(storage) == email
  {
  }

  class AuthStore {
    var role: Option<string>
    var email: string
    /** The browser's localStorage, as far as this provider touches it. */
    var storage: map<string, string>

    predicate Valid()
      reads this
    {
      SyncedWith(role, email, storage)
    }

    /** Mounting the provider: state from storage, then the effects' first run. */
    constructor (stored: map<string, string>)
      ensures Valid()
      ensures role == StoredRole(stored) && email == StoredEmail(stored)
      ensures storage == Synchronize(stored, StoredRole(stored), StoredEmail(stored))
    {
      role := StoredRole(stored);
      email := StoredEmail(stored);
      storage := Synchronize(stored, StoredRole(stored), StoredEmail(stored));
    }

    /** `loginAs(newRole, userEmail)` followed by the effects. */
    method LoginAs(newRole: Option<string>, userEmail: string)
      modifies this
      ensures Valid()
      ensures role == newRole && email == userEmail
      ensures storage == Synchronize(old(storage), newRole, userEmail)
    {
      role := newRole;
      email := userEmail;
      storage := Synchronize(storage, role, email);
    }

    /** `logout()` followed by the effects: null role, empty email, both keys removed. */
    method Logout()
      modifies this
      ensures Valid()
      ensures role == None && email == ""
      ensures RoleKey !in storage && EmailKey !in storage
      ensures storage == old(storage) - {RoleKey, EmailKey}
    {
      role := None;
      email := "";
      storage := Synchronize(storage, role, email);
    }
  }
}
