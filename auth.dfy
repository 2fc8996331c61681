/** Registration, login, logout and session restore as the browser performs them
    when the server is unreachable. */
module Auth {
  import opened Model
  import opened Storage

  /** The role a new account gets: administrator exactly for the sentinel username. */
  function RoleFor(username: string): (r: string)
    ensures r == ADMIN <==> username == SENTINEL
    ensures r == ADMIN || r == USER
  {
    if username == SENTINEL then ADMIN else USER
  }

  predicate HasUsername(users: seq<Account>, name: string) {
    exists i :: 0 <= i < |users| && users[i].username == name
  }

  predicate HasEmail(users: seq<Account>, email: string) {
    exists i :: 0 <= i < |users| && users[i].email == email
  }

  /** The user list after the login-time seeding: the default administrator is
      appended when no account has the sentinel username, and only then. */
  function Seeded(users: seq<Account>): (r: seq<Account>)
    ensures HasUsername(r, SENTINEL)
    ensures |r| == |users| + (if HasUsername(users, SENTINEL) then 0 else 1)
    ensures r[..|users|] == users
    ensures !HasUsername(users, SENTINEL) ==> r[|users|] == DEFAULT_ADMIN
  {
    if HasUsername(users, SENTINEL) then users
    else
      var r := users + [DEFAULT_ADMIN];
      assert r[|users|].username == SENTINEL;
      r
  }

  /** `users.find(u => u.email === email && u.password === password)`, as an index. */
  function FindLogin(users: seq<Account>, email: string, password: string): (r: Option<nat>)
    ensures r.Some? ==> r.value < |users| && users[r.value].email == email && users[r.value].password == password
    ensures r.Some? ==> forall j :: 0 <= j < r.value ==> !(users[j].email == email && users[j].password == password)
    ensures r.None? <==> forall j :: 0 <= j < |users| ==> !(users[j].email == email && users[j].password == password)
  {
    if |users| == 0 then None
    else if users[0].email == email && users[0].password == password then Some(0)
    else match FindLogin(users[1..], email, password)
      case None => None
      case Some(k) => Some(k + 1)
  }

  /** The role a logged-in user ends up with: the sentinel is forced to admin, a
      missing or empty role becomes `user`, any other role is kept. */
  function Normalise(u: SafeUser): (r: SafeUser)
    ensures r.(role := u.role) == u
    ensures u.username == SENTINEL ==> r.role == Some(ADMIN)
    ensures u.username != SENTINEL && Truthy(u.role) ==> r.role == u.role
    ensures u.username != SENTINEL && !Truthy(u.role) ==> r.role == Some(USER)
    ensures Truthy(r.role)
  {
    if u.username == SENTINEL then u.(role := Some(ADMIN))
    else if !Truthy(u.role) then u.(role := Some(USER))
    else u
  }

  /** The session a local login with these credentials opens, if any. */
  function LocalLogin(users: seq<Account>, email: string, password: string): (r: Option<SafeUser>)
    ensures r.Some? <==> exists i :: 0 <= i < |users| && users[i].email == email && users[i].password == password
    ensures r.Some? ==> exists i :: 0 <= i < |users| && users[i].email == email && users[i].password == password
                                    && (forall j :: 0 <= j < i ==> !(users[j].email == email && users[j].password == password))
                                    && r.value == Normalise(Strip(users[i]))
    ensures r.Some? && r.value.username == SENTINEL ==> r.value.role == Some(ADMIN)
    ensures r.Some? ==> Truthy(r.value.role)
  {
    match FindLogin(users, email, password)
    case None => None
    case Some(i) => Some(Normalise(Strip(users[i])))
  }

  /** The seeded administrator's credentials open its session after seeding exactly
      when the seeding ran, that is when no account had the sentinel username
      before; no stored account may already use those credentials. */
  lemma {:induction false} SeededAdminLogsIn(users: seq<Account>)
    requires forall i :: 0 <= i < |users| ==>
      !(users[i].email == DEFAULT_ADMIN.email && users[i].password == DEFAULT_ADMIN.password)
    ensures !HasUsername(users, SENTINEL) ==>
      LocalLogin(Seeded(users), DEFAULT_ADMIN.email, DEFAULT_ADMIN.password) == Some(Strip(DEFAULT_ADMIN))
    ensures HasUsername(users, SENTINEL) ==>
      LocalLogin(Seeded(users), DEFAULT_ADMIN.email, DEFAULT_ADMIN.password).None?
  {
    var r := Seeded(users);
    if !HasUsername(users, SENTINEL) {
      assert r[|users|] == DEFAULT_ADMIN;
      assert forall j :: 0 <= j < |users| ==> r[j] == users[j];
    }
  }

  /** An account named like the sentinel but with other credentials suppresses the
      seeding, and the well-known admin credentials then open no session. */
  lemma SentinelNameBlocksAdminLogin()
    ensures var users := [Account("1", SENTINEL, "me@x.com", "pw", Some(ADMIN))];
      LocalLogin(Seeded(users), DEFAULT_ADMIN.email, DEFAULT_ADMIN.password).None?
  {
    var users := [Account("1", SENTINEL, "me@x.com", "pw", Some(ADMIN))];
    assert users[0].username == SENTINEL;
  }

  /** An earlier account registered with the admin's email and password comes first:
      seeding adds a second account with that email, and the well-known admin
      credentials open the earlier account's session, with role `user`. */
  lemma EarlierAccountShadowsAdmin()
    ensures var users := [Account("2", "bob", DEFAULT_ADMIN.email, DEFAULT_ADMIN.password, Some(USER))];
      && Seeded(users) == users + [DEFAULT_ADMIN]
      && LocalLogin(Seeded(users), DEFAULT_ADMIN.email, DEFAULT_ADMIN.password)
         == Some(SafeUser("2", "bob", DEFAULT_ADMIN.email, Some(USER)))
  {
    var users := [Account("2", "bob", DEFAULT_ADMIN.email, DEFAULT_ADMIN.password, Some(USER))];
    assert !HasUsername(users, SENTINEL) by {
      assert forall i :: 0 <= i < |users| ==> users[i].username == "bob";
    }
  }

  /** Seeding is done once: a seeded list is seeded again without change. */
  lemma SeedOnce(users: seq<Account>)
    ensures Seeded(Seeded(users)) == Seeded(users)
  {
  }

  /** The retroactive repair applied to a stored session: a sentinel user is
      made admin, nothing else changes. */
  function Restored(u: SafeUser): (r: SafeUser)
    ensures r.(role := u.role) == u
    ensures u.username == SENTINEL ==> r.role == Some(ADMIN)
    ensures u.username != SENTINEL ==> r == u
  {
    if u.username == SENTINEL && u.role != Some(ADMIN) then u.(role := Some(ADMIN)) else u
  }

  /** The `useAuth` hook in local-storage mode. */
  class Session {
    var user: Option<SafeUser>
    const store: LocalStore

    constructor (store: LocalStore)
      ensures this.store == store && user.None?
    {
      this.store := store;
      user := None;
    }

    /** Start-up: adopt the stored session, repairing (and writing back) the
        sentinel's role only when it was not already admin. */
    method Restore() returns (rewritten: bool)
      modifies this`user, store`session
      ensures old(store.session).None? ==>
        !rewritten && user == old(user) && store.session == old(store.session)
      ensures old(store.session).Some? ==>
        var u := old(store.session).value;
        && user == Some(Restored(u)) && store.session == user
        && (rewritten <==> u.username == SENTINEL && u.role != Some(ADMIN))
    {
      rewritten := false;
      match store.session
      case None =>
      case Some(u) =>
        var fixed := u;
        if u.username == SENTINEL && u.role != Some(ADMIN) {
          fixed := u.(role := Some(ADMIN));
          store.session := Some(fixed);
          rewritten := true;
        }
        user := Some(fixed);
    }

    /** Local login: seed the default admin if needed, then open the session of the
        first account with exactly these credentials, password stripped. */
    method Login(email: string, password: string) returns (ok: bool)
      modifies this`user, store`users, store`session
      ensures var before := old(store.users).GetOr([]);
        store.users == if HasUsername(before, SENTINEL) then old(store.users) else Some(Seeded(before))
      ensures var users := Seeded(old(store.users).GetOr([]));
        ok == LocalLogin(users, email, password).Some?
        && (ok ==> user == LocalLogin(users, email, password) && store.session == user)
      ensures !ok ==> user == old(user) && store.session == old(store.session)
    {
      var users := store.users.GetOr([]);
      if !HasUsername(users, SENTINEL) {
        users := users + [DEFAULT_ADMIN];
        store.users := Some(users);
      }
      var found := FindLogin(users, email, password);
      if found.None? {
        return false;
      }
      var safe := Normalise(Strip(users[found.value]));
      user := Some(safe);
      store.session := Some(safe);
      ok := true;
    }

    /** Local registration: refused on a known email, otherwise appends the account
        and opens its session without the password. */
    method Register(username: string, email: string, password: string, newId: string) returns (ok: bool)
      modifies this`user, store`users, store`session
      ensures var users := old(store.users).GetOr([]);
        ok <==> !HasEmail(users, email)
      ensures !ok ==> store.users == old(store.users) && user == old(user) && store.session == old(store.session)
      ensures ok ==>
        var role := Some(RoleFor(username));
        && store.users == Some(old(store.users).GetOr([]) + [Account(newId, username, email, password, role)])
        && user == Some(SafeUser(newId, username, email, role))
        && store.session == user
    {
      var role := RoleFor(username);
      var users := store.users.GetOr([]);
      if HasEmail(users, email) {
        return false;
      }
      var account := Account(newId, username, email, password, Some(role));
      store.users := Some(users + [account]);
      var safe := Strip(account);
      user := Some(safe);
      store.session := Some(safe);
      ok := true;
    }

    /** Close the session in the page and in storage. */
    method Logout()
      modifies this`user, store`session
      ensures user.None? && store.session.None?
    {
      user := None;
      store.session := None;
    }
  }
}
