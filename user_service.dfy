/** UserService.kt: sign-up with a duplicate-e-mail guard, login that checks
    the password and issues a token, and lookup by e-mail. Password hashing
    and token issuing are the parameters `encode`, `matches`, `createToken`
    and `expirationSeconds`. */
module UserService {
  import opened Common
  import opened Users

  datatype LoginResult = LoginResult(accessToken: string, expiresIn: int)

  /** `signUp`. A stored e-mail gives DuplicateEmail and saves nothing;
      otherwise exactly one member is added, with the encoded password. */
  method SignUp(users: UserStore, encode: string -> string,
                email: string, password: string, name: string, now: Time)
    returns (r: Result<User>)
    requires users.Valid()
    modifies users
    ensures users.Valid()
    ensures old(users.ExistsByEmail(email)) ==>
              r == Failure(DuplicateEmail) && users.rows == old(users.rows) && users.nextId == old(users.nextId)
    ensures !old(users.ExistsByEmail(email)) ==>
              r == Success(User(old(users.nextId), email, encode(password), name, now, Member)) &&
              users.rows == old(users.rows) + [r.value] && users.nextId == old(users.nextId) + 1
  {
    if users.ExistsByEmail(email) {
      return Failure(DuplicateEmail);
    }
    var user := users.Save(email, encode(password), name, now, Member);
    r := Success(user);
  }

  /** The credential check of `login`: the stored user with that e-mail,
      provided the password matches its hash. An unknown e-mail fails
      without consulting `matches`. */
  function Authenticate(rows: seq<User>, matches: (string, string) -> bool,
                        email: string, password: string): (r: Result<User>)
    ensures r.Success? <==>
              FindUserByEmail(rows, email).Some? && matches(password, FindUserByEmail(rows, email).value.password)
    ensures r.Success? ==> r.value in rows && r.value.email == email
    ensures r.Failure? ==> r.error == InvalidCredentials
  {
    match FindUserByEmail(rows, email)
    case None => Failure(InvalidCredentials)
    case Some(user) =>
      if !matches(password, user.password) then Failure(InvalidCredentials) else Success(user)
  }

  /** `login`. Reads the table and writes nothing (no login history). A
      token is created only for an authenticated user, from its e-mail and
      role name. */
  method Login(users: UserStore, matches: (string, string) -> bool,
               createToken: (string, string) -> string, expirationSeconds: int,
               email: string, password: string)
    returns (r: Result<LoginResult>)
    ensures Authenticate(users.rows, matches, email, password).Failure? ==> r == Failure(InvalidCredentials)
    ensures Authenticate(users.rows, matches, email, password).Success? ==>
              var u := Authenticate(users.rows, matches, email, password).value;
              r == Success(LoginResult(createToken(u.email, u.role.Name()), expirationSeconds))
  {
    var found := FindUserByEmail(users.rows, email);
    if found.None? {
      return Failure(InvalidCredentials);
    }
    var user := found.value;
    if !matches(password, user.password) {
      return Failure(InvalidCredentials);
    }
    var token := createToken(user.email, user.role.Name());
    r := Success(LoginResult(token, expirationSeconds));
  }

  /** `getUserByEmail`. */
  method GetUserByEmail(users: UserStore, email: string) returns (r: Result<User>)
    ensures r.Failure? <==> forall i :: 0 <= i < |users.rows| ==> users.rows[i].email != email
    ensures r.Failure? ==> r.error == UserNotFound
    ensures r.Success? ==> r.value in users.rows && r.value.email == email
  {
    var found := FindUserByEmail(users.rows, email);
    if found.None? {
      return Failure(UserNotFound);
    }
    r := Success(found.value);
  }

  /** Signing up and then logging in with the same password succeeds,
      provided the hash accepts the password it was made from; the token
      carries the MEMBER role. */
  lemma SignUpThenLogin(rows: seq<User>, nextId: Id, matches: (string, string) -> bool,
                        encode: string -> string, email: string, password: string, name: string, now: Time)
    requires FindUserByEmail(rows, email).None?
    requires matches(password, encode(password))
    ensures var u := User(nextId, email, encode(password), name, now, Member);
            Authenticate(rows + [u], matches, email, password) == Success(u) &&
            u.role.Name() == "MEMBER"
  {
    var u := User(nextId, email, encode(password), name, now, Member);
    FindUserByEmailAppend(rows, u, email);
  }

  /** Signing up never changes who another e-mail address authenticates as. */
  lemma SignUpKeepsOtherLogins(rows: seq<User>, u: User, matches: (string, string) -> bool,
                               email: string, password: string)
    requires FindUserByEmail(rows, u.email).None?
    requires email != u.email
    ensures Authenticate(rows + [u], matches, email, password) == Authenticate(rows, matches, email, password)
  {
    FindUserByEmailAppend(rows, u, email);
  }
}
