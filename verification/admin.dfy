/** User administration (`samosval/routes/admin_routes.py`): the admin-only
    guard, creating users, and blocking and unblocking them. Password
    hashing is a parameter: the model only needs it to be a function. */
module AdminRoutes {
  import opened Common
  import opened Records
  import opened Access

  /** `_ensure_admin`: 401 without a signed-in user, 403 for anyone but an
      admin. */
  function EnsureAdmin(actor: Option<User>): (r: Outcome<User>)
    ensures r == Fail(401) <==> actor.None?
    ensures r == Fail(403) <==> actor.Some? && actor.value.role != Admin
    ensures r.Ok? <==> actor.Some? && actor.value.role == Admin
    ensures r.Ok? ==> actor == Some(r.value)
  {
    match actor
    case None => Fail(401)
    case Some(u) => if u.role != Admin then Fail(403) else Ok(u)
  }

  /** The admin guard is the role gate for admins alone, stricter than the
      staff gate: whoever it lets through also passes `{Operator, Admin}`,
      while an operator passes that gate and is refused here. */
  lemma EnsureAdminIsAdminGate(u: User)
    ensures EnsureAdmin(Some(u)).Ok? <==> RoleRequired(u, {Admin}) == Pass
    ensures EnsureAdmin(Some(u)).Ok? ==> RoleRequired(u, {Operator, Admin}) == Pass
    ensures u.role == Operator ==> EnsureAdmin(Some(u)) == Fail(403) && RoleRequired(u, {Operator, Admin}) == Pass
  {
  }

  /** The user form, each field `None` when absent. */
  datatype UserForm = UserForm(username: Option<string>, password: Option<string>, role: Option<string>)

  /** What an admin action leads to besides the database. */
  datatype AdminReply = InvalidUser | DuplicateUsername | UserCreated(id: int) | RootProtected | ActiveChanged

  /** The roles `create_user` accepts. */
  const KnownRoles: set<string> := {"admin", "operator", "developer"}

  predicate ValidUserInput(username: string, password: string, role: string) {
    username != "" && password != "" && role in KnownRoles
  }

  /** No two users share a username. */
  ghost predicate UniqueUsernames(users: seq<User>) {
    forall i, j :: 0 <= i < j < |users| ==> users[i].username != users[j].username
  }

  /** `create_user`: username and role are stripped, the password is not;
      invalid input and taken usernames change nothing; otherwise one active
      user with a fresh id and one audit record. */
  function CreateUser(db: Db, actor: Option<User>, f: UserForm, hash: string -> string, now: string): (r: Outcome<(Db, AdminReply)>)
    ensures r.Fail? <==> EnsureAdmin(actor).Fail?
    ensures r.Fail? ==> r.code == EnsureAdmin(actor).code
    ensures r.Ok? ==>
              var (db', reply) := r.value;
              var name := Strip(f.username.GetOr(""));
              var role := Strip(f.role.GetOr(""));
              var password := f.password.GetOr("");
              && (reply == InvalidUser <==> !ValidUserInput(name, password, role))
              && (reply == DuplicateUsername <==>
                    ValidUserInput(name, password, role) && exists i :: 0 <= i < |db.users| && db.users[i].username == name)
              && (reply.InvalidUser? || reply.DuplicateUsername? ==> db' == db)
              && (reply.InvalidUser? || reply.DuplicateUsername? || reply.UserCreated?)
              && (reply.UserCreated? ==>
                    && (forall i :: 0 <= i < |db.users| ==> db.users[i].id != reply.id && db.users[i].username != name)
                    && db' == db.(users := db.users + [User(reply.id, name, hash(password), ParseRole(role), true, now)],
                                  audit := db.audit + [AuditEvent(Some(actor.value.id), "user_create", Some(reply.id),
                                                                  "User " + name + " created with role " + role)])
                    && RoleName(db'.users[|db.users|].role) == role)
  {
    match EnsureAdmin(actor)
    case Fail(code) => Fail(code)
    case Ok(admin) =>
      var name := Strip(f.username.GetOr(""));
      var password := f.password.GetOr("");
      var role := Strip(f.role.GetOr(""));
      if !ValidUserInput(name, password, role) then Ok((db, InvalidUser))
      else if FindUserByName(db.users, name).Some? then Ok((db, DuplicateUsername))
      else
        var id := NextKey(db.users, UserKey);
        var users := db.users + [User(id, name, hash(password), ParseRole(role), true, now)];
        RoleNameParse(role);
        var db' := Audit(db.(users := users), Some(admin.id), "user_create", Some(id),
                         "User " + name + " created with role " + role);
        Ok((db', UserCreated(id)))
  }

  /** Creating users keeps user ids and usernames distinct. */
  lemma CreateUserKeepsUsersDistinct(db: Db, actor: Option<User>, f: UserForm, hash: string -> string, now: string)
    requires UniqueKeys(db.users, UserKey) && UniqueUsernames(db.users)
    requires CreateUser(db, actor, f, hash, now).Ok?
    ensures var db' := CreateUser(db, actor, f, hash, now).value.0;
            UniqueKeys(db'.users, UserKey) && UniqueUsernames(db'.users)
  {
    var (db', reply) := CreateUser(db, actor, f, hash, now).value;
    if reply.UserCreated? {
      var u := db'.users[|db.users|];
      assert db'.users == db.users + [u];
      FreshNameStaysUnique(db.users, u);
      InsertKeepsUnique(db.users, u, UserKey);
    }
  }

  lemma FreshNameStaysUnique(users: seq<User>, u: User)
    requires UniqueUsernames(users)
    requires forall i :: 0 <= i < |users| ==> users[i].username != u.username
    ensures UniqueUsernames(users + [u])
  {
  }

  /** `_change_user_active`: 404 for a missing user; "root" is refused and
      nothing changes; otherwise the flag is written for that id only and
      one audit record is added. */
  function ChangeUserActive(db: Db, actor: Option<User>, userId: int, active: bool, action: string): (r: Outcome<(Db, AdminReply)>)
    ensures r.Fail? && r.code != 404 <==> EnsureAdmin(actor).Fail?
    ensures r.Fail? && r.code != 404 ==> r.code == EnsureAdmin(actor).code
    ensures r == Fail(404) <==> EnsureAdmin(actor).Ok? && FindUser(db, userId).None?
    ensures r.Ok? && FindUser(db, userId).value.username == "root" ==> r.value == (db, RootProtected)
    ensures r.Ok? && FindUser(db, userId).value.username != "root" ==>
              var (db', reply) := r.value;
              && reply == ActiveChanged
              && |db'.users| == |db.users|
              && (forall j :: 0 <= j < |db.users| ==>
                    db'.users[j] == if db.users[j].id == userId then db.users[j].(isActive := active) else db.users[j])
              && db' == db.(users := db'.users,
                            audit := db.audit + [AuditEvent(Some(actor.value.id), action, Some(userId),
                                                            "User " + FindUser(db, userId).value.username +
                                                            (if active then " unblocked" else " blocked"))])
  {
    match EnsureAdmin(actor)
    case Fail(code) => Fail(code)
    case Ok(admin) =>
      match FindUser(db, userId)
      case None => Fail(404)
      case Some(target) =>
        if target.username == "root" then Ok((db, RootProtected))
        else
          var users := UpdateWhere(db.users, userId, UserKey, (u: User) => u.(isActive := active));
          var db' := Audit(db.(users := users), Some(admin.id), action, Some(userId),
                           "User " + target.username + (if active then " unblocked" else " blocked"));
          Ok((db', ActiveChanged))
  }

  /** `block_user` */
  function BlockUser(db: Db, actor: Option<User>, userId: int): (r: Outcome<(Db, AdminReply)>)
    ensures r.Ok? && r.value.1 == ActiveChanged ==>
              |r.value.0.users| == |db.users| && |r.value.0.audit| == |db.audit| + 1
    ensures r.Ok? && r.value.1 == ActiveChanged ==>
              forall j :: 0 <= j < |db.users| && db.users[j].id == userId ==> !r.value.0.users[j].isActive
    ensures r.Ok? && r.value.1 == ActiveChanged ==>
              forall j :: 0 <= j < |db.users| && db.users[j].id != userId ==> r.value.0.users[j] == db.users[j]
    ensures r.Ok? && r.value.1 == ActiveChanged ==> r.value.0.audit[|db.audit|].action == "user_block"
  {
    ChangeUserActive(db, actor, userId, false, "user_block")
  }

  /** `unblock_user` */
  function UnblockUser(db: Db, actor: Option<User>, userId: int): (r: Outcome<(Db, AdminReply)>)
    ensures r.Ok? && r.value.1 == ActiveChanged ==>
              |r.value.0.users| == |db.users| && |r.value.0.audit| == |db.audit| + 1
    ensures r.Ok? && r.value.1 == ActiveChanged ==>
              forall j :: 0 <= j < |db.users| && db.users[j].id == userId ==> r.value.0.users[j].isActive
    ensures r.Ok? && r.value.1 == ActiveChanged ==>
              forall j :: 0 <= j < |db.users| && db.users[j].id != userId ==> r.value.0.users[j] == db.users[j]
    ensures r.Ok? && r.value.1 == ActiveChanged ==> r.value.0.audit[|db.audit|].action == "user_unblock"
  {
    ChangeUserActive(db, actor, userId, true, "user_unblock")
  }

  /** No admin action blocks the root account. */
  lemma RootStaysActive(db: Db, actor: Option<User>, userId: int)
    requires FindUser(db, userId).Some? && FindUser(db, userId).value.username == "root"
    ensures BlockUser(db, actor, userId).Ok? ==> BlockUser(db, actor, userId).value.0 == db
  {
  }

  /** Blocking an active user and unblocking them again restores the user
      table. */
  lemma BlockThenUnblock(db: Db, actor: Option<User>, userId: int)
    requires UniqueKeys(db.users, UserKey)
    requires BlockUser(db, actor, userId).Ok? && BlockUser(db, actor, userId).value.1 == ActiveChanged
    requires FindUser(db, userId).value.isActive
    ensures var db1 := BlockUser(db, actor, userId).value.0;
            UnblockUser(db1, actor, userId).Ok? && UnblockUser(db1, actor, userId).value.0.users == db.users
  {
    var db1 := BlockUser(db, actor, userId).value.0;
    FindSameKeys(db.users, db1.users, userId, UserKey);
    var k := Find(db.users, userId, UserKey).value;
    assert FindUser(db1, userId).value == db.users[k].(isActive := false);
    var db2 := UnblockUser(db1, actor, userId).value.0;
    forall j | 0 <= j < |db.users| ensures db2.users[j] == db.users[j] {
      if db.users[j].id == userId {
        SameKeySameRow(db.users, UserKey, j, k);
      }
    }
  }
}
