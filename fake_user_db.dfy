/**
 * The in-memory user list (frontend/src/utils/fakeUserDB.js): a module-level
 * array seeded with the administrator credential, appended to by `addUser`.
 */
module FakeUserDb {
  import opened Wrappers
  import opened Lists

  datatype User = User(email: string, password: string)

  const AdminUser := User("admin@innopolis.university", "admin")

  predicate Matches(u: User, email: string, password: string) {
    u.email == email && u.password == password
  }

  /** `isAdmin(email, password)`: the literal credentials, whatever the list holds. */
  predicate IsAdmin(email: string, password: string) {
    email == AdminUser.email && password == AdminUser.password
  }

  class UserList {
    var users: seq<User>

    /** The module's initial value: the administrator alone. */
    constructor ()
      ensures users == [AdminUser]
    {
      users := [AdminUser];
    }

    /** `addUser`: push at the end, with no duplicate check. */
    method AddUser(user: User)
      modifies this
      ensures users == old(users) + [user]
    {
      users := users + [user];
    }

    /** `getUsers`: the list itself. */
    function GetUsers(): (r: seq<User>)
      reads this
      ensures r == users
    {
      users
    }

    /** `findUser`: the first user with both the email and the password. */
    function FindUser(email: string, password: string): (r: Option<User>)
      reads this
      ensures r.Some? ==> r.value in users && Matches(r.value, email, password)
      ensures r.None? <==> forall i :: 0 <= i < |users| ==> !Matches(users[i], email, password)
      ensures r.Some? ==> exists i :: 0 <= i < |users| && users[i] == r.value && forall j :: 0 <= j < i ==> !Matches(users[j], email, password)
    {
      var k := FirstIndex(users, (u: User) => Matches(u, email, password));
      if k.None? then None else Some(users[k.value])
    }

    /** `userExists`: some user has this email. */
    function UserExists(email: string): (b: bool)
      reads this
      ensures b <==> exists i :: 0 <= i < |users| && users[i].email == email
    {
      FirstIndex(users, (u: User) => u.email == email).Some?
    }
  }

  /** After `addUser(u)`, `userExists(u.email)` holds and `findUser` finds a user with u's credentials. */
  method AddThenFind(db: UserList, user: User) returns (exists_: bool, found: Option<User>)
    modifies db
    ensures exists_
    ensures found.Some? && found.value == user
  {
    db.AddUser(user);
    exists_ := db.UserExists(user.email);
    assert db.users[|db.users| - 1] == user;
    found := db.FindUser(user.email, user.password);
  }

  /** The administrator seeded at start-up is found with its credentials and recognised by `isAdmin`. */
  method SeededAdminIsFound() returns (found: Option<User>)
    ensures found == Some(AdminUser) && IsAdmin(found.value.email, found.value.password)
  {
    var db := new UserList();
    found := db.FindUser(AdminUser.email, AdminUser.password);
  }
}
