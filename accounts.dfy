/**
 * Accounts: the username `register` derives from an e-mail address, the
 * registration itself, the name split in `input_form`, and the choice
 * `login` makes about where to send a user after checking the password.
 */
module Accounts {
  import opened Wrappers
  import opened Rows
  import opened Text
  import opened Models
  import opened Store

  // ---------------------------------------------------------------------
  // register
  // ---------------------------------------------------------------------

  /** `email.split('@')[0]`: everything before the first '@', or all of it. */
  function UsernameFromEmail(email: string): (r: string)
    ensures |r| <= |email| && r == email[..|r|] && '@' !in r
    ensures |r| < |email| ==> email[|r|] == '@'
  {
    BeforeFirst(email, '@')
  }

  /** The username of "local@domain" is "local", whatever the domain holds (another '@' included). */
  lemma UsernameOfAddress(local: string, domain: string)
    requires '@' !in local
    ensures UsernameFromEmail(local + "@" + domain) == local
  {
    BeforeFirstOfJoin(local, '@', domain);
  }

  /** The registration form; `role` is already an int. */
  datatype Registration = Registration(firstName: string, middleName: string, lastName: string,
                                       email: string, password: string, roleId: Id)

  /** Back to login after a commit, or back to the form: duplicate e-mail, or a rollback. */
  datatype RegisterReply = Registered | DuplicateEmail | RegisterFailed

  datatype Signup = Signup(reply: RegisterReply, users: seq<User>)

  predicate UsernameTaken(users: seq<User>, name: string)
  {
    exists u :: u in users && u.username == name
  }

  /**
   * `register()` on POST. An e-mail already on file is refused first. The
   * new user is `User(username=..., names, email, hash, role_id)`; its id is
   * one more than the largest (the sequence is reset to MAX(id) first), and
   * the commit fails when a string is too long, the username is taken or the
   * role does not exist.
   */
  function Register(users: seq<User>, roles: seq<Role>, form: Registration, hash: string -> string, now: Time)
    : (r: Signup)
    ensures r.reply != Registered ==> r.users == users
    ensures r.reply == DuplicateEmail <==> exists u :: u in users && u.email == form.email
    ensures r.reply == RegisterFailed <==>
              && !(exists u :: u in users && u.email == form.email)
              && (|| !UserFits(UsernameFromEmail(form.email), form.email,
                               Some(form.firstName), Some(form.middleName), Some(form.lastName))
                  || UsernameTaken(users, UsernameFromEmail(form.email))
                  || FindRole(roles, form.roleId).None?)
    ensures r.reply == Registered ==>
              && |r.users| == |users| + 1 && r.users[..|users|] == users
              && var u := r.users[|users|];
                 && u.username == UsernameFromEmail(form.email)
                 && u.email == form.email
                 && u.passwordHash == hash(form.password)
                 && u.roleId == form.roleId
                 && FindRole(roles, form.roleId).Some?
                 && u.isActive == Some(true)
                 && u.firstName == Some(form.firstName) && u.middleName == Some(form.middleName)
                 && u.lastName == Some(form.lastName)
                 && u.createdAt == Some(now)
                 && !UsernameTaken(users, u.username)
                 && forall v :: v in users ==> v.id < u.id
  {
    if FindUserByEmail(users, form.email).Some? then Signup(DuplicateEmail, users)
    else
      var username := UsernameFromEmail(form.email);
      match NewUser(NextId(users, UserKey), username, form.email, hash(form.password), form.roleId, None,
                    Some(form.firstName), Some(form.middleName), Some(form.lastName), now)
      case None => Signup(RegisterFailed, users)
      case Some(u) =>
        if UsernameTaken(users, username) || FindRole(roles, form.roleId).None? then Signup(RegisterFailed, users)
        else
          assert (users + [u])[..|users|] == users;
          Signup(Registered, users + [u])
  }

  /** Registration keeps ids, usernames and e-mails unique. */
  lemma RegisterKeepsUsersUnique(users: seq<User>, roles: seq<Role>, form: Registration, hash: string -> string,
                                 now: Time)
    requires Unique(users, UserKey) && Unique(users, Username) && Unique(users, Email)
    ensures var after := Register(users, roles, form, hash, now).users;
            Unique(after, UserKey) && Unique(after, Username) && Unique(after, Email)
  {
    var r := Register(users, roles, form, hash, now);
    if r.reply == Registered {
      var u := r.users[|users|];
      assert r.users == users + [u];
      UniqueAppend(users, u, UserKey);
      UniqueAppend(users, u, Username);
      UniqueAppend(users, u, Email);
    }
  }

  /** Registering twice with one e-mail adds one user: the second attempt is refused. */
  lemma SecondRegistrationIsRefused(users: seq<User>, roles: seq<Role>, form: Registration, again: Registration,
                                    hash: string -> string, now: Time, later: Time)
    requires Register(users, roles, form, hash, now).reply == Registered
    requires again.email == form.email
    ensures var first := Register(users, roles, form, hash, now).users;
            Register(first, roles, again, hash, later) == Signup(DuplicateEmail, first)
  {
    var first := Register(users, roles, form, hash, now).users;
    assert first[|users|] in first;
  }

  method RegisterHandler(db: Database, form: Registration, hash: string -> string, now: Time)
    returns (reply: RegisterReply)
    requires db.Valid()
    modifies db`users
    ensures db.Valid()
    ensures Signup(reply, db.users) == Register(old(db.users), db.roles, form, hash, now)
  {
    var r := Register(db.users, db.roles, form, hash, now);
    RegisterKeepsUsersUnique(db.users, db.roles, form, hash, now);
    db.users := r.users;
    reply := r.reply;
  }

  // ---------------------------------------------------------------------
  // input_form: the name split
  // ---------------------------------------------------------------------

  datatype NameParts = NameParts(first: string, middle: string, last: string)

  /** `name.split()`, then parts 0, 1 and 2, each '' when missing; further words are dropped. */
  function SplitName(name: string): NameParts
  {
    var ws := SplitWords(name, PyWhitespace);
    NameParts(if |ws| > 0 then ws[0] else "", if |ws| > 1 then ws[1] else "", if |ws| > 2 then ws[2] else "")
  }

  /** Words joined by single spaces come back as the parts, extra words dropped and missing ones empty. */
  lemma SplitNameOfWords(ws: seq<string>)
    requires forall i :: 0 <= i < |ws| ==> IsWord(ws[i], PyWhitespace)
    ensures var r := SplitName(JoinWords(ws));
            && r.first == (if |ws| > 0 then ws[0] else "")
            && r.middle == (if |ws| > 1 then ws[1] else "")
            && r.last == (if |ws| > 2 then ws[2] else "")
  {
    SplitJoin(ws, PyWhitespace);
  }

  /** No part of a split name is empty unless the name ran out of words, and none holds whitespace. */
  lemma SplitNamePartsAreWords(name: string)
    ensures var r := SplitName(name);
            && (r.first == "" || IsWord(r.first, PyWhitespace))
            && (r.middle == "" || IsWord(r.middle, PyWhitespace))
            && (r.last == "" || IsWord(r.last, PyWhitespace))
            && (r.first == "" ==> r.middle == "" && r.last == "")
            && (r.middle == "" ==> r.last == "")
  {
    var ws := SplitWords(name, PyWhitespace);
    SplitWordsAreWords(name, PyWhitespace);
    if |ws| > 0 { assert IsWord(ws[0], PyWhitespace); }
    if |ws| > 1 { assert IsWord(ws[1], PyWhitespace); }
    if |ws| > 2 { assert IsWord(ws[2], PyWhitespace); }
  }

  // ---------------------------------------------------------------------
  // login
  // ---------------------------------------------------------------------

  /** Where a successful login redirects. */
  datatype Target = NextPage(path: string) | AdminIndex | ProductsPage

  /**
   * The redirect after a correct password: the `next` argument when it is
   * non-empty and starts with '/', else the admin index for an admin, else
   * the product list.
   */
  function LoginRedirect(next: Option<string>, isAdmin: bool): (t: Target)
    ensures t.NextPage? <==> next.Some? && StartsWith(next.value, "/")
    ensures t.NextPage? ==> t.path == next.value
    ensures t == AdminIndex <==> isAdmin && !(next.Some? && StartsWith(next.value, "/"))
  {
    if next.Some? && next.value != "" && StartsWith(next.value, "/") then NextPage(next.value)
    else if isAdmin then AdminIndex
    else ProductsPage
  }

  /**
   * `login()` outcomes: a signed-in visitor goes straight to products; a
   * form whose e-mail is unknown or whose password does not check is shown
   * again; otherwise the redirect. Flask-Login signs the user in only when
   * `is_active` is true, but the redirect happens either way.
   */
  datatype LoginResult = AlreadySignedIn | BadCredentials | Accepted(userId: Id, target: Target, signedIn: bool)

  /**
   * `login()` on POST. The e-mail and password are stripped; the first user
   * with that e-mail is checked with `check(hash, password)`.
   */
  function Login(users: seq<User>, roles: seq<Role>, authenticated: bool, email: string, password: string,
                 next: Option<string>, check: (string, string) -> bool): (r: LoginResult)
    ensures authenticated <==> r == AlreadySignedIn
    ensures !authenticated && FindUserByEmail(users, Trim(email, PyWhitespace)).None? ==> r == BadCredentials
    ensures r.Accepted? <==>
              && !authenticated
              && FindUserByEmail(users, Trim(email, PyWhitespace)).Some?
              && check(users[FindUserByEmail(users, Trim(email, PyWhitespace)).value].passwordHash,
                       Trim(password, PyWhitespace))
    ensures r.Accepted? ==>
              && var i := FindUserByEmail(users, Trim(email, PyWhitespace)).value;
                 && FindUserByEmail(users, Trim(email, PyWhitespace)).Some?
                 && r.userId == users[i].id
                 && check(users[i].passwordHash, Trim(password, PyWhitespace))
                 && r.target == LoginRedirect(next, IsAdmin(roles, users[i]))
                 && (r.signedIn <==> users[i].isActive == Some(true))
  {
    if authenticated then AlreadySignedIn
    else match FindUserByEmail(users, Trim(email, PyWhitespace))
      case None => BadCredentials
      case Some(i) =>
        if !check(users[i].passwordHash, Trim(password, PyWhitespace)) then BadCredentials
        else Accepted(users[i].id, LoginRedirect(next, IsAdmin(roles, users[i])), users[i].isActive == Some(true))
  }

  /** Surrounding whitespace typed around the e-mail and password does not matter. */
  lemma LoginIgnoresPadding(users: seq<User>, roles: seq<Role>, email: string, password: string,
                            next: Option<string>, check: (string, string) -> bool)
    ensures Login(users, roles, false, email, password, next, check)
            == Login(users, roles, false, Trim(email, PyWhitespace), Trim(password, PyWhitespace), next, check)
  {
    TrimIdempotent(email, PyWhitespace);
    TrimIdempotent(password, PyWhitespace);
  }

  /** A protocol-relative `next` such as "//host/path" starts with '/' and is followed. */
  lemma ProtocolRelativeNextIsFollowed(host: string, isAdmin: bool)
    ensures LoginRedirect(Some("//" + host), isAdmin) == NextPage("//" + host)
  {
  }
}
