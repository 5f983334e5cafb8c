/** The authentication handlers: registration adds a user with a hashed
    password, login checks a password against the stored hash and issues a
    bearer token, and `/me` echoes the caller. Hashing, verification and
    token creation are not part of this model: they are parameters. */
module AuthRoutes {
  import opened Common
  import opened Models
  import opened Schemas
  import opened Database

  const EmailTaken := "Email already registered."
  const Registered := "User registered successfully."
  const BadCredentials := "Invalid email or password."
  const BearerType := "bearer"

  /** The registration response. */
  datatype RegisterResponse = RegisterResponse(message: string, user: UserOut)

  /** The row registration stores: the payload's fields, the hashed
      password, the next id and the default active flag. */
  function RegisteredUser(id: int, payload: UserCreate, hashPassword: string -> string): (u: User)
    ensures u.id == id && u.isActive
    ensures u.name == payload.name && u.email == payload.email && u.role == payload.role
    ensures u.password == hashPassword(payload.password)
  {
    NewUser(id, payload.name, payload.email, hashPassword(payload.password), payload.role)
  }

  /** POST /api/auth/register: an email already in use is a 400 that adds
      nothing; otherwise the user is stored and returned without its
      password. */
  method RegisterUser(db: Db, payload: UserCreate, hashPassword: string -> string) returns (r: Result<RegisterResponse>)
    requires db.Valid()
    modifies db
    ensures db.Valid()
    ensures UserByEmail(old(db.users), payload.email).Some? ==> r == Err(BadRequest, EmailTaken) && unchanged(db)
    ensures UserByEmail(old(db.users), payload.email).None? ==>
      var u := RegisteredUser(old(db.nextUserId), payload, hashPassword);
      && db.users == old(db.users) + [u]
      && db.nextUserId == old(db.nextUserId) + 1
      && r == Ok(RegisterResponse(Registered, ToUserOut(u)))
    ensures db.submissions == old(db.submissions) && db.tags == old(db.tags) && db.links == old(db.links)
    ensures db.reviews == old(db.reviews) && db.annotations == old(db.annotations)
  {
    if UserByEmail(db.users, payload.email).Some? {
      return Err(BadRequest, EmailTaken);
    }
    var u := RegisteredUser(db.nextUserId, payload, hashPassword);
    InsertUserValid(db.users, db.nextUserId, db.submissions, u);
    db.users := db.users + [u];
    db.nextUserId := db.nextUserId + 1;
    r := Ok(RegisterResponse(Registered, ToUserOut(u)));
  }

  /** Appending a user with a fresh id and an unused email keeps the user
      table valid and every submission's owner stored. */
  lemma InsertUserValid(us: seq<User>, next: int, ss: seq<Submission>, u: User)
    requires UsersValid(us, next) && OwnersStored(ss, us)
    requires u.id == next && UserByEmail(us, u.email).None?
    ensures UsersValid(us + [u], next + 1) && OwnersStored(ss, us + [u])
  {
    var us' := us + [u];
    forall i | 0 <= i < |ss| ensures HasUser(us', ss[i].userId) {
      var j :| 0 <= j < |us| && us[j].id == ss[i].userId;
      assert us'[j] == us[j];
    }
  }

  /** POST /api/auth/login: an unknown email and a wrong password give the
      same 401; otherwise a bearer token for the id of the stored user with
      that email, and that user. */
  function Login(us: seq<User>, payload: LoginUser, verify: (string, string) -> bool, createToken: int -> string): (r: Result<LoginResponse>)
    ensures r.Err? ==> r == Err(Unauthorized, BadCredentials)
    ensures r.Ok? ==> exists k :: 0 <= k < |us| && us[k].email == payload.email && verify(payload.password, us[k].password)
    ensures r.Ok? ==> r.value.tokenType == BearerType && r.value.accessToken == createToken(r.value.user.id)
    ensures r.Ok? ==> r.value.user.email == payload.email
    ensures r.Ok? ==> UserByEmail(us, payload.email).Some?
    ensures r.Ok? ==>
      var u := us[UserByEmail(us, payload.email).value];
      r.value.user == ToUserOut(u) && r.value.accessToken == createToken(u.id)
  {
    match UserByEmail(us, payload.email)
    case None => Err(Unauthorized, BadCredentials)
    case Some(k) =>
      if !verify(payload.password, us[k].password) then Err(Unauthorized, BadCredentials)
      else Ok(LoginResponse(createToken(us[k].id), BearerType, ToUserOut(us[k])))
  }

  /** With unique emails, login succeeds exactly when some stored user has
      the email and the password verifies against that user's hash. */
  lemma LoginSucceedsIff(us: seq<User>, next: int, payload: LoginUser, verify: (string, string) -> bool, createToken: int -> string)
    requires UsersValid(us, next)
    ensures Login(us, payload, verify, createToken).Ok? <==>
      exists k :: 0 <= k < |us| && us[k].email == payload.email && verify(payload.password, us[k].password)
  {
    if k :| 0 <= k < |us| && us[k].email == payload.email && verify(payload.password, us[k].password) {
      var f := UserByEmail(us, payload.email);
      assert f.Some?;
      assert f.value == k;
    }
  }

  /** Whether a login succeeds, and the token it issues, do not depend on
      any user's active flag: a deactivated user still logs in. */
  lemma LoginIgnoresActive(us: seq<User>, k: nat, active: bool, payload: LoginUser,
                           verify: (string, string) -> bool, createToken: int -> string)
    requires k < |us|
    ensures var r1 := Login(us, payload, verify, createToken);
      var r2 := Login(us[k := us[k].(isActive := active)], payload, verify, createToken);
      && r1.Ok? == r2.Ok?
      && (r1.Ok? ==> r1.value.accessToken == r2.value.accessToken && r1.value.user.id == r2.value.user.id)
  {
    var us' := us[k := us[k].(isActive := active)];
    FindFirstSameMatches(us, (u: User) => u.email == payload.email, us', (u: User) => u.email == payload.email);
  }

  /** A user just registered logs in with the password they chose exactly
      when the verifier accepts that password against its own hash, and the
      token names the new id. */
  lemma RegisterThenLogin(us: seq<User>, next: int, payload: UserCreate, hashPassword: string -> string,
                          verify: (string, string) -> bool, createToken: int -> string)
    requires UsersValid(us, next) && UserByEmail(us, payload.email).None?
    ensures var r := Login(us + [RegisteredUser(next, payload, hashPassword)], LoginUser(payload.email, payload.password), verify, createToken);
      && (r.Ok? <==> verify(payload.password, hashPassword(payload.password)))
      && (r.Ok? ==> r.value.user.id == next && r.value.accessToken == createToken(next))
  {
    var u := RegisteredUser(next, payload, hashPassword);
    FindFirstAppend(us, u, (x: User) => x.email == payload.email);
    assert UserByEmail(us + [u], payload.email) == Some(|us|);
    assert (us + [u])[|us|] == u;
  }

  /** GET /api/auth/me: the caller as `UserOut`. Everything but the
      password survives: two users with the same response differ at most in
      their password. */
  lemma MeHidesOnlyPassword(u: User, v: User)
    requires ToUserOut(u) == ToUserOut(v)
    ensures u.(password := v.password) == v
  {
  }
}
