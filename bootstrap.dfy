/**
 * The start-up block that guarantees an administrator: find the role named
 * exactly "Admin", then update the user with the configured e-mail in place
 * or add one, and commit.
 */
module Bootstrap {
  import opened Wrappers
  import opened Rows
  import opened Text
  import opened Models
  import opened Store

  /** `ADMIN_USERNAME`, `ADMIN_EMAIL`, `ADMIN_PASSWORD`; `None` when unset. */
  datatype Env = Env(username: Option<string>, email: Option<string>, password: Option<string>)

  datatype Settings = Settings(username: string, email: string, password: string)

  const AdminFirstName: string := "Админ"
  const AdminLastName: string := "Системы"

  /**
   * Each value stripped of surrounding whitespace; the defaults are "admin",
   * the stripped username followed by "@example.com", and "admin123".
   */
  function AdminSettings(env: Env): Settings
  {
    var username := StrippedOr(env.username, "admin");
    Settings(username, StrippedOr(env.email, DefaultEmail(username)), StrippedOr(env.password, "admin123"))
  }

  /** `os.getenv(name, default).strip()`. */
  function StrippedOr(value: Option<string>, default: string): string
  {
    Trim(value.GetOr(default), PyWhitespace)
  }

  function DefaultEmail(username: string): string
  {
    username + "@example.com"
  }

  /** The settings carry no surrounding whitespace, so stripping them again changes nothing. */
  lemma SettingsAreStripped(env: Env)
    ensures var s := AdminSettings(env);
            && Trim(s.username, PyWhitespace) == s.username
            && Trim(s.email, PyWhitespace) == s.email
            && Trim(s.password, PyWhitespace) == s.password
  {
    var username := StrippedOr(env.username, "admin");
    TrimIdempotent(env.username.GetOr("admin"), PyWhitespace);
    TrimIdempotent(env.email.GetOr(DefaultEmail(username)), PyWhitespace);
    TrimIdempotent(env.password.GetOr("admin123"), PyWhitespace);
  }

  lemma DefaultEmailHasNothingToStrip(username: string)
    requires username == [] || username[0] !in PyWhitespace
    ensures Trim(DefaultEmail(username), PyWhitespace) == DefaultEmail(username)
  {
    var e := DefaultEmail(username);
    assert e[|e| - 1] == 'm' && 'm' !in PyWhitespace;
    assert e[0] == (if username == [] then '@' else username[0]) && '@' !in PyWhitespace;
    TrimNoop(e, PyWhitespace);
  }

  /**
   * Without `ADMIN_EMAIL` the e-mail is exactly the stripped username
   * followed by "@example.com": that string has nothing to strip.
   */
  lemma DefaultEmailIsUsernameAtExample(env: Env)
    requires env.email.None?
    ensures AdminSettings(env).email == AdminSettings(env).username + "@example.com"
  {
    DefaultEmailHasNothingToStrip(StrippedOr(env.username, "admin"));
  }

  lemma DefaultUsername(env: Env)
    requires env.username.None?
    ensures AdminSettings(env).username == "admin"
  {
    TrimNoop("admin", PyWhitespace);
  }

  lemma DefaultPassword(env: Env)
    requires env.password.None?
    ensures AdminSettings(env).password == "admin123"
  {
    TrimNoop("admin123", PyWhitespace);
  }

  /** With nothing set, the administrator is admin / admin@example.com / admin123. */
  lemma DefaultSettings(env: Env)
    requires env.username.None? && env.email.None? && env.password.None?
    ensures AdminSettings(env) == Settings("admin", "admin@example.com", "admin123")
  {
    DefaultUsername(env);
    DefaultPassword(env);
    DefaultEmailIsUsernameAtExample(env);
    SpelledOut(AdminSettings(env));
  }

  lemma SpelledOut(s: Settings)
    requires s.username == "admin" && s.email == s.username + "@example.com" && s.password == "admin123"
    ensures s == Settings("admin", "admin@example.com", "admin123")
  {
  }

  /** `raise` for a missing role, a commit, or a commit that raises (the username is taken or too long). */
  datatype Reply = AdminReady | NoAdminRole | CommitFailed

  datatype Outcome = Outcome(reply: Reply, users: seq<User>)

  /** Some user other than the one at `except` already has the name. */
  predicate NameTakenByOther(users: seq<User>, name: string, except: int)
  {
    exists j :: 0 <= j < |users| && j != except && users[j].username == name
  }

  /** The configured user after the upsert's assignments on an existing row. */
  function Promoted(u: User, roleId: Id, s: Settings, hash: string -> string, now: Time): User
  {
    u.(roleId := roleId, username := s.username, isActive := Some(true),
       firstName := Some(AdminFirstName), lastName := Some(AdminLastName),
       passwordHash := hash(s.password), updatedAt := Some(now))
  }

  /**
   * The bootstrap block. `hash` stands for `set_password`, which salts, so
   * two runs may be given different functions. The password is always
   * rehashed, so an existing row always gets a new `updated_at`.
   */
  function BootstrapAdmin(users: seq<User>, roles: seq<Role>, s: Settings, hash: string -> string, now: Time)
    : (r: Outcome)
    ensures r.reply != AdminReady ==> r.users == users
    ensures r.reply == NoAdminRole <==> FindRoleByName(roles, "Admin").None?
    ensures FindRoleByName(roles, "Admin").Some? && FindUserByEmail(users, s.email).Some? ==>
              (r.reply == CommitFailed <==>
                 || NameTakenByOther(users, s.username, FindUserByEmail(users, s.email).value)
                 || !FitsVarchar(s.username, 64))
    ensures FindRoleByName(roles, "Admin").Some? && FindUserByEmail(users, s.email).None? ==>
              (r.reply == CommitFailed <==>
                 || NameTakenByOther(users, s.username, -1)
                 || !UserFits(s.username, s.email, Some(AdminFirstName), None, Some(AdminLastName)))
    ensures r.reply == AdminReady && FindUserByEmail(users, s.email).Some? ==>
              var i := FindUserByEmail(users, s.email).value;
              var role := roles[FindRoleByName(roles, "Admin").value];
              && |r.users| == |users|
              && r.users[i] == Promoted(users[i], role.id, s, hash, now)
              && forall j :: 0 <= j < |users| && j != i ==> r.users[j] == users[j]
    ensures r.reply == AdminReady && FindUserByEmail(users, s.email).None? ==>
              var role := roles[FindRoleByName(roles, "Admin").value];
              && |r.users| == |users| + 1 && r.users[..|users|] == users
              && var u := r.users[|users|];
                 && u.username == s.username && u.email == s.email && u.roleId == role.id
                 && u.isActive == Some(true) && u.passwordHash == hash(s.password)
                 && u.firstName == Some(AdminFirstName) && u.middleName == None
                 && u.lastName == Some(AdminLastName)
                 && forall v :: v in users ==> v.id < u.id
  {
    match FindRoleByName(roles, "Admin")
    case None => Outcome(NoAdminRole, users)
    case Some(k) =>
      match FindUserByEmail(users, s.email)
      case Some(i) =>
        if NameTakenByOther(users, s.username, i) || !FitsVarchar(s.username, 64) then Outcome(CommitFailed, users)
        else Outcome(AdminReady, users[i := Promoted(users[i], roles[k].id, s, hash, now)])
      case None =>
        match NewUser(NextId(users, UserKey), s.username, s.email, hash(s.password), roles[k].id, Some(true),
                      Some(AdminFirstName), None, Some(AdminLastName), now)
        case None => Outcome(CommitFailed, users)
        case Some(u) =>
          if NameTakenByOther(users, s.username, -1) then Outcome(CommitFailed, users)
          else
            assert (users + [u])[..|users|] == users;
            Outcome(AdminReady, users + [u])
  }

  /** The user table's UNIQUE constraints. */
  ghost predicate UsersUnique(users: seq<User>)
  {
    Unique(users, UserKey) && Unique(users, Username) && Unique(users, Email)
  }

  /** The bootstrap keeps ids, usernames and e-mails unique. */
  lemma BootstrapKeepsUsersUnique(users: seq<User>, roles: seq<Role>, s: Settings, hash: string -> string, now: Time)
    requires UsersUnique(users)
    ensures UsersUnique(BootstrapAdmin(users, roles, s, hash, now).users)
  {
    var r := BootstrapAdmin(users, roles, s, hash, now);
    if r.reply == AdminReady {
      var k := FindRoleByName(roles, "Admin").value;
      match FindUserByEmail(users, s.email)
      case Some(i) =>
        var u := Promoted(users[i], roles[k].id, s, hash, now);
        assert r.users == users[i := u];
        UniqueUpdate(users, i, u, UserKey);
        UniqueUpdate(users, i, u, Email);
        forall a, b | 0 <= a < b < |r.users| ensures Username(r.users[a]) != Username(r.users[b]) {
          if a == i {
            assert users[b].username != s.username;
          } else if b == i {
            assert users[a].username != s.username;
          }
        }
      case None =>
        var u := r.users[|users|];
        assert r.users == users + [u];
        UniqueAppend(users, u, UserKey);
        forall v | v in users ensures v.username != u.username {
          var j :| 0 <= j < |users| && users[j] == v;
        }
        UniqueAppend(users, u, Username);
        UniqueAppend(users, u, Email);
    }
  }

  /** Where the configured user sits after a successful run: its old row, or the appended one. */
  function AdminRow(users: seq<User>, s: Settings): nat
  {
    match FindUserByEmail(users, s.email)
    case Some(i) => i
    case None => |users|
  }

  /** The e-mail lookup finds the first row carrying the address. */
  lemma FirstWithEmail(users: seq<User>, email: string, at: nat)
    requires at < |users| && users[at].email == email
    requires forall j :: 0 <= j < at ==> users[j].email != email
    ensures FindUserByEmail(users, email) == Some(at)
  {
  }

  /** After a successful run the configured user's row carries everything the upsert assigns. */
  lemma FoundAtAdminRow(users: seq<User>, roles: seq<Role>, s: Settings, hash: string -> string, now: Time)
    requires BootstrapAdmin(users, roles, s, hash, now).reply == AdminReady
    ensures var after := BootstrapAdmin(users, roles, s, hash, now).users;
            var at := AdminRow(users, s);
            && FindUserByEmail(after, s.email) == Some(at)
            && after[at].isActive == Some(true)
            && after[at].username == s.username && FitsVarchar(s.username, 64)
            && after[at].roleId == roles[FindRoleByName(roles, "Admin").value].id
            && after[at].firstName == Some(AdminFirstName) && after[at].lastName == Some(AdminLastName)
  {
    var after := BootstrapAdmin(users, roles, s, hash, now).users;
    var at := AdminRow(users, s);
    match FindUserByEmail(users, s.email)
    case Some(i) =>
      assert forall j :: 0 <= j < i ==> after[j] == users[j];
      FirstWithEmail(after, s.email, i);
    case None =>
      assert forall j :: 0 <= j < |users| ==> after[j] == users[j] by {
        assert after[..|users|] == users;
      }
      FirstWithEmail(after, s.email, |users|);
  }

  /** A user holding the role named exactly "Admin" passes `is_admin`. */
  lemma AdminRoleIsAdmin(roles: seq<Role>, k: nat, u: User)
    requires Unique(roles, RoleKey)
    requires k < |roles| && roles[k].name == "Admin" && u.roleId == roles[k].id
    ensures IsAdmin(roles, u)
  {
    var f := FindRole(roles, roles[k].id).value;
    assert RoleKey(roles[f]) == RoleKey(roles[k]);
    assert Lower("Admin") == "admin";
  }

  /**
   * After a successful run, the user with the configured e-mail is active,
   * carries the Admin role, and `is_admin` holds for them.
   */
  lemma BootstrapYieldsActiveAdmin(users: seq<User>, roles: seq<Role>, s: Settings, hash: string -> string, now: Time)
    requires Unique(roles, RoleKey)
    requires BootstrapAdmin(users, roles, s, hash, now).reply == AdminReady
    ensures var after := BootstrapAdmin(users, roles, s, hash, now).users;
            var found := FindUserByEmail(after, s.email);
            && found.Some?
            && after[found.value].isActive == Some(true)
            && after[found.value].username == s.username
            && IsAdmin(roles, after[found.value])
  {
    var after := BootstrapAdmin(users, roles, s, hash, now).users;
    FoundAtAdminRow(users, roles, s, hash, now);
    AdminRoleIsAdmin(roles, FindRoleByName(roles, "Admin").value, after[AdminRow(users, s)]);
  }

  /** The only row holding a unique username is its own. */
  lemma OnlyHolder(users: seq<User>, at: nat)
    requires Unique(users, Username) && at < |users|
    ensures !NameTakenByOther(users, users[at].username, at)
  {
    forall j | 0 <= j < |users| && j != at ensures users[j].username != users[at].username {
      assert Username(users[j]) != Username(users[at]);
    }
  }

  /**
   * Running the block a second time, even with another salt, finds the user
   * the first run left and changes only its password hash and `updated_at`.
   */
  lemma BootstrapTwice(users: seq<User>, roles: seq<Role>, s: Settings, hash: string -> string, hash2: string -> string,
                       now: Time, later: Time)
    requires UsersUnique(users)
    requires BootstrapAdmin(users, roles, s, hash, now).reply == AdminReady
    ensures var once := BootstrapAdmin(users, roles, s, hash, now).users;
            var i := FindUserByEmail(once, s.email).value;
            && FindUserByEmail(once, s.email).Some?
            && BootstrapAdmin(once, roles, s, hash2, later)
               == Outcome(AdminReady, once[i := once[i].(passwordHash := hash2(s.password),
                                                          updatedAt := Some(later))])
  {
    var once := BootstrapAdmin(users, roles, s, hash, now).users;
    var at := AdminRow(users, s);
    FoundAtAdminRow(users, roles, s, hash, now);
    BootstrapKeepsUsersUnique(users, roles, s, hash, now);
    OnlyHolder(once, at);
    var k := FindRoleByName(roles, "Admin").value;
    assert Promoted(once[at], roles[k].id, s, hash2, later)
           == once[at].(passwordHash := hash2(s.password), updatedAt := Some(later));
  }

  /** Start-up, given `AdminSettings` of the environment: upsert the administrator and commit, or roll back. */
  method BootstrapHandler(db: Database, s: Settings, hash: string -> string, now: Time) returns (reply: Reply)
    requires db.Valid()
    modifies db`users
    ensures db.Valid()
    ensures Outcome(reply, db.users) == BootstrapAdmin(old(db.users), db.roles, s, hash, now)
  {
    var r := BootstrapAdmin(db.users, db.roles, s, hash, now);
    BootstrapKeepsUsersUnique(db.users, db.roles, s, hash, now);
    db.users := r.users;
    reply := r.reply;
  }
}
