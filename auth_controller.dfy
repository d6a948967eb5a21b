/**
 * Registration and login checks of the authentication controller. The user
 * collection is a sequence in storage order; `findOne` returns its first
 * match. Password hashing, hash comparison and token signing are external
 * libraries and are parameters (`hash`, `compare`, `sign`).
 */
module AuthController {
  import opened Wrappers
  import AuthMiddleware

  /** The fields of a registration request body; any of them may be absent. */
  datatype RegisterRequest = RegisterRequest(
    username: Option<string>, password: Option<string>, role: Option<string>, email: Option<string>)

  /** The fields of a login request body. */
  datatype LoginRequest = LoginRequest(email: Option<string>, password: Option<string>)

  /** A stored user; `passwordHash` is what `hash` produced at registration. */
  datatype UserRecord = UserRecord(id: string, username: string, email: string, passwordHash: string, role: string)

  /** A successful login: the signed token and the user summary sent with it. */
  datatype Session = Session(token: string, username: string, email: string, role: string)

  datatype AuthError =
    | MissingFields
    | InvalidEmail
    | BadUsernameLength
    | ShortPassword
    | InvalidRole
    | UsernameTaken
    | EmailTaken
    | MissingCredentials
    | InvalidCredentials

  const MinUsernameLength: nat := 3
  const MaxUsernameLength: nat := 30
  const MinPasswordLength: nat := 6

  /** The HTTP status each error is answered with. */
  function StatusCode(e: AuthError): nat {
    if e == UsernameTaken || e == EmailTaken then 409
    else if e == InvalidCredentials then 401
    else 400
  }

  /** The message each error is answered with. */
  function Message(e: AuthError): string {
    match e
    case MissingFields => "All fields are required."
    case InvalidEmail => "Invalid email format."
    case BadUsernameLength => "Username must be between 3 and 30 characters."
    case ShortPassword => "Password must be at least 6 characters long."
    case InvalidRole => "Invalid role."
    case UsernameTaken => "Username already exists."
    case EmailTaken => "Email already exists."
    case MissingCredentials => "Email and password are required."
    case InvalidCredentials => "Invalid credentials."
  }

  // ---------------------------------------------------------------------------
  // The email pattern /.+\@.+\..+/ (unanchored)

  /** The characters a regular-expression `.` does not match. */
  predicate IsLineTerminator(c: char) {
    c == '\n' || c == '\r' || c == '\U{2028}' || c == '\U{2029}'
  }

  /**
   * `/.+\@.+\..+/.test(s)`: somewhere in `s` an '@' preceded by a character,
   * then at least one character, then a '.' followed by a character, where
   * every character matched by a `.` is not a line terminator.
   */
  function MatchesEmailPattern(s: string): (b: bool)
    ensures b ==> exists at :: 0 < at < |s| - 3 && s[at] == '@'
  {
    exists at: int, dot: int ::
      && 0 < at < |s| && at + 1 < dot < |s| - 1
      && s[at] == '@' && s[dot] == '.'
      && !IsLineTerminator(s[at - 1]) && !IsLineTerminator(s[dot + 1])
      && NoLineTerminatorBetween(s, at, dot)
  }

  /** No character strictly between positions `lo` and `hi` of `s` is a line terminator. */
  predicate NoLineTerminatorBetween(s: string, lo: int, hi: int)
    requires 0 <= lo <= hi <= |s|
  {
    forall k :: lo < k < hi ==> !IsLineTerminator(s[k])
  }

  /** What a match implies about the shape of an accepted address. */
  lemma EmailPatternShape(s: string)
    requires MatchesEmailPattern(s)
    ensures |s| >= 5 && '@' in s && '.' in s
  {
  }

  /** The pattern is unanchored and lets '@' and '.' through in the middle part. */
  lemma EmailPatternAccepts()
    ensures MatchesEmailPattern("a@b.c")
    ensures MatchesEmailPattern("not an address: x@y.z!")
    ensures MatchesEmailPattern("a@b@c..d")
  {
    AcceptsPlainAddress();
    AcceptsSurroundedAddress();
    AcceptsRepeatedSeparators();
  }

  lemma AcceptsPlainAddress()
    ensures MatchesEmailPattern("a@b.c")
  {
    MatchAt("a@b.c", 1, 3);
  }

  lemma AcceptsSurroundedAddress()
    ensures MatchesEmailPattern("not an address: x@y.z!")
  {
    var s := "not an address: x@y.z!";
    assert s[17] == '@' && s[19] == '.' && s[18] == 'y';
    MatchAt(s, 17, 19);
  }

  lemma AcceptsRepeatedSeparators()
    ensures MatchesEmailPattern("a@b@c..d")
  {
    var s := "a@b@c..d";
    assert s[4] == 'c' && s[5] == '.';
    MatchAt(s, 3, 6);
  }

  /** Too short, nothing before the '@', or a line break where a `.` must match. */
  lemma EmailPatternRejects()
    ensures !MatchesEmailPattern("a@b")
    ensures !MatchesEmailPattern("@b.c")
    ensures !MatchesEmailPattern("a@\nb.c")
  {
    var s2 := "@b.c";
    assert forall at :: 0 < at < |s2| ==> s2[at] != '@';
    var s3 := "a@\nb.c";
    forall at: int, dot: int | 0 < at < |s3| && at + 1 < dot < |s3| - 1 && s3[at] == '@' && s3[dot] == '.'
      ensures !NoLineTerminatorBetween(s3, at, dot)
    {
      assert at == 1 && dot == 4;
      assert IsLineTerminator(s3[2]);
    }
  }

  /** A witness for the pattern: the positions of its '@' and of its '.'. */
  lemma MatchAt(s: string, at: int, dot: int)
    requires 0 < at < |s| && at + 1 < dot < |s| - 1
    requires s[at] == '@' && s[dot] == '.'
    requires !IsLineTerminator(s[at - 1]) && !IsLineTerminator(s[dot + 1])
    requires forall k :: at < k < dot ==> !IsLineTerminator(s[k])
    ensures MatchesEmailPattern(s)
  {
  }

  // ---------------------------------------------------------------------------
  // Registration

  /**
   * `User.findOne({$or: [{username}, {email}]})`: the first stored user that
   * shares the username or the email, if any.
   */
  function FindConflict(users: seq<UserRecord>, username: string, email: string): (r: Option<UserRecord>)
    ensures r.None? <==> forall i :: 0 <= i < |users| ==> users[i].username != username && users[i].email != email
    ensures r.Some? ==> r.value in users && (r.value.username == username || r.value.email == email)
    ensures r.Some? ==> exists i :: 0 <= i < |users| && users[i] == r.value &&
                                    forall j :: 0 <= j < i ==> users[j].username != username && users[j].email != email
  {
    if users == [] then None
    else if users[0].username == username || users[0].email == email then Some(users[0])
    else FindConflict(users[1..], username, email)
  }

  predicate AllPresent(req: RegisterRequest) {
    Truthy(req.username) && Truthy(req.password) && Truthy(req.role) && Truthy(req.email)
  }

  /** The request passes every field check that runs before the duplicate lookup. */
  predicate PassesChecks(req: RegisterRequest) {
    && AllPresent(req)
    && MatchesEmailPattern(req.email.value)
    && MinUsernameLength <= |req.username.value| <= MaxUsernameLength
    && |req.password.value| >= MinPasswordLength
    && req.role.value in ["customer", "staff"]
  }

  /**
   * `registerWithEmailAndPassword`: the checks run in a fixed order and the
   * first failing one decides the answer; a request passing all of them is
   * refused with 409 when a stored user shares its username or email, and
   * otherwise yields the record to save, with the password hashed.
   */
  function Register(req: RegisterRequest, users: seq<UserRecord>, newId: string, hash: string -> string)
    : (r: Result<UserRecord, AuthError>)
    ensures !AllPresent(req) ==> r == Failure(MissingFields)
    ensures AllPresent(req) && !MatchesEmailPattern(req.email.value) ==> r == Failure(InvalidEmail)
    ensures AllPresent(req) && MatchesEmailPattern(req.email.value)
            && !(MinUsernameLength <= |req.username.value| <= MaxUsernameLength)
            ==> r == Failure(BadUsernameLength)
    ensures AllPresent(req) && MatchesEmailPattern(req.email.value)
            && MinUsernameLength <= |req.username.value| <= MaxUsernameLength
            && |req.password.value| < MinPasswordLength
            ==> r == Failure(ShortPassword)
    ensures AllPresent(req) && MatchesEmailPattern(req.email.value)
            && MinUsernameLength <= |req.username.value| <= MaxUsernameLength
            && |req.password.value| >= MinPasswordLength
            && req.role.value !in ["customer", "staff"]
            ==> r == Failure(InvalidRole)
    ensures PassesChecks(req) ==>
            (r.Success? <==> FindConflict(users, req.username.value, req.email.value).None?)
    ensures PassesChecks(req) && FindConflict(users, req.username.value, req.email.value).Some? ==>
            var existing := FindConflict(users, req.username.value, req.email.value).value;
            && r == Failure(if existing.username == req.username.value then UsernameTaken else EmailTaken)
            && StatusCode(r.error) == 409
            && Message(r.error) == (if existing.username == req.username.value
                                    then "Username already exists." else "Email already exists.")
    ensures r.Failure? && StatusCode(r.error) == 409 ==>
            AllPresent(req) && req.role.value in ["customer", "staff"]
            && exists i :: 0 <= i < |users| && (users[i].username == req.username.value || users[i].email == req.email.value)
    ensures r == Failure(EmailTaken) ==> exists i :: 0 <= i < |users| && users[i].email == req.email.value
    ensures r == Failure(UsernameTaken) ==> exists i :: 0 <= i < |users| && users[i].username == req.username.value
    ensures r.Success? ==>
            && AllPresent(req)
            && MatchesEmailPattern(req.email.value)
            && MinUsernameLength <= |req.username.value| <= MaxUsernameLength
            && |req.password.value| >= MinPasswordLength
            && req.role.value in ["customer", "staff"]
            && (forall i :: 0 <= i < |users| ==>
                  users[i].username != req.username.value && users[i].email != req.email.value)
            && r.value == UserRecord(newId, req.username.value, req.email.value, hash(req.password.value), req.role.value)
  {
    if !AllPresent(req) then Failure(MissingFields)
    else
      var username, password, role, email := req.username.value, req.password.value, req.role.value, req.email.value;
      if !MatchesEmailPattern(email) then Failure(InvalidEmail)
      else if |username| < MinUsernameLength || |username| > MaxUsernameLength then Failure(BadUsernameLength)
      else if |password| < MinPasswordLength then Failure(ShortPassword)
      else if role !in ["customer", "staff"] then Failure(InvalidRole)
      else match FindConflict(users, username, email)
        case Some(existing) =>
          Failure(if existing.username == username then UsernameTaken else EmailTaken)
        case None =>
          Success(UserRecord(newId, username, email, hash(password), role))
  }

  /**
   * The 409 message follows the FIRST stored user that matches, so a
   * username that is taken can still be reported as "Email already exists."
   * when an earlier user holds the email.
   */
  lemma ConflictReportsFirstMatch(hash: string -> string)
    ensures
      var users := [UserRecord("1", "alice", "bob@shop.io", "h1", "customer"),
                    UserRecord("2", "bob", "b@shop.io", "h2", "staff")];
      var req := RegisterRequest(Some("bob"), Some("secret1"), Some("customer"), Some("bob@shop.io"));
      Register(req, users, "3", hash) == Failure(EmailTaken)
  {
    var users := [UserRecord("1", "alice", "bob@shop.io", "h1", "customer"),
                  UserRecord("2", "bob", "b@shop.io", "h2", "staff")];
    MatchAt("bob@shop.io", 3, 8);
    assert FindConflict(users, "bob", "bob@shop.io") == Some(users[0]);
    assert users[0].username != "bob";
  }

  // ---------------------------------------------------------------------------
  // Login

  /** `User.findOne({email})`: the first stored user with that email. */
  function FindByEmail(users: seq<UserRecord>, email: string): (r: Option<UserRecord>)
    ensures r.None? <==> forall i :: 0 <= i < |users| ==> users[i].email != email
    ensures r.Some? ==> r.value in users && r.value.email == email
    ensures r.Some? ==> exists i :: 0 <= i < |users| && users[i] == r.value &&
                                    forall j :: 0 <= j < i ==> users[j].email != email
  {
    if users == [] then None
    else if users[0].email == email then Some(users[0])
    else FindByEmail(users[1..], email)
  }

  /** The payload the login token is signed over. */
  function ClaimsOf(user: UserRecord): (c: AuthMiddleware.Claims)
    ensures c.role == Some(user.role) && c.userId == user.id
    ensures c.username == user.username && c.email == user.email
    ensures AuthMiddleware.HasValidRole(c).Next? <==> user.role in ["customer", "staff"]
  {
    AuthMiddleware.Claims(user.id, user.username, Some(user.role), user.email)
  }

  /**
   * `loginWithEmailAndPassword`: 400 when email or password is missing; an
   * unknown email and a wrong password are both answered 401 "Invalid
   * credentials."; otherwise a token signed over the stored user.
   */
  function Login(req: LoginRequest, users: seq<UserRecord>,
                 compare: (string, string) -> bool, sign: AuthMiddleware.Claims -> string)
    : (r: Result<Session, AuthError>)
    ensures !Truthy(req.email) || !Truthy(req.password) ==> r == Failure(MissingCredentials)
    ensures r.Failure? ==> r.error in {MissingCredentials, InvalidCredentials}
    ensures Truthy(req.email) && Truthy(req.password) && FindByEmail(users, req.email.value).None?
            ==> r == Failure(InvalidCredentials)
    ensures r.Success? <==>
            && Truthy(req.email) && Truthy(req.password)
            && FindByEmail(users, req.email.value).Some?
            && compare(req.password.value, FindByEmail(users, req.email.value).value.passwordHash)
    ensures r.Failure? && Truthy(req.email) && Truthy(req.password) ==>
            r.error == InvalidCredentials && StatusCode(r.error) == 401 && Message(r.error) == "Invalid credentials."
    ensures r.Success? ==>
            && Truthy(req.email) && Truthy(req.password)
            && var user := FindByEmail(users, req.email.value);
            && user.Some?
            && compare(req.password.value, user.value.passwordHash)
            && r.value == Session(sign(ClaimsOf(user.value)), user.value.username, user.value.email, user.value.role)
  {
    if !Truthy(req.email) || !Truthy(req.password) then Failure(MissingCredentials)
    else match FindByEmail(users, req.email.value)
      case None => Failure(InvalidCredentials)
      case Some(user) =>
        if !compare(req.password.value, user.passwordHash) then Failure(InvalidCredentials)
        else Success(Session(sign(ClaimsOf(user)), user.username, user.email, user.role))
  }

  /**
   * An unknown email and a known email with a wrong password get the same
   * answer, so a caller cannot tell which of the two it was.
   */
  lemma LoginDoesNotRevealUnknownEmail(req: LoginRequest, unknown: seq<UserRecord>, known: seq<UserRecord>,
                                       compare: (string, string) -> bool, sign: AuthMiddleware.Claims -> string)
    requires Truthy(req.email) && Truthy(req.password)
    requires forall i :: 0 <= i < |unknown| ==> unknown[i].email != req.email.value
    requires FindByEmail(known, req.email.value).Some?
    requires !compare(req.password.value, FindByEmail(known, req.email.value).value.passwordHash)
    ensures Login(req, unknown, compare, sign) == Login(req, known, compare, sign)
    ensures Login(req, known, compare, sign).Failure?
    ensures StatusCode(Login(req, known, compare, sign).error) == 401
  {
  }

  /**
   * The token a registered user logs in with passes the any-valid-role
   * gate, and exactly one of the customer and staff gates.
   */
  lemma RegisteredUserPassesRoleGate(req: RegisterRequest, users: seq<UserRecord>, newId: string, hash: string -> string)
    requires Register(req, users, newId, hash).Success?
    ensures var c := ClaimsOf(Register(req, users, newId, hash).value);
            && AuthMiddleware.HasValidRole(c).Next?
            && (AuthMiddleware.IsCustomer(c).Next? <==> !AuthMiddleware.IsStaff(c).Next?)
            && (AuthMiddleware.IsCustomer(c).Next? <==> req.role == Some("customer"))
  {
  }
}
