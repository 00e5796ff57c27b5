/**
 * `UserAuthController`: logging in (look the user up, check the password,
 * issue a token) and registering (required fields, formats, then the
 * store's uniqueness check on the lower-cased name and e-mail address).
 * Password hashing and checking arrive as functions.
 */
module UserAuth {
  import opened Wrappers
  import opened Models
  import Text
  import Validation
  import KeyGenerator
  import opened Database
  import JwtAuth

  datatype LoginRequest = LoginRequest(username: string, password: string)

  /** The registration body (`AddNewUserModel`); any field may be null. */
  datatype AddNewUserModel = AddNewUserModel(userName: Option<string>, email: Option<string>, password: Option<string>)

  /** Where `RegisterNewUser`'s checks leave a request: answered already, or handed to the store. */
  datatype RegistrationGate =
    | Answer(response: ActionResult)
    | Proceed(userName: string, email: string, password: string)

  const RequiredMessage := "Email and password are required."
  const InvalidMessage := "Invalid email or password."

  /**
   * The checks of `RegisterNewUser` before the store is consulted, in their
   * order: blank e-mail or password, then their formats; a missing user name
   * only fails (with an exception) once both have passed.
   */
  function CheckRegistration(request: AddNewUserModel): (gate: RegistrationGate)
    ensures gate == Answer(BadRequest(RequiredMessage)) <==>
      Text.IsNullOrWhiteSpace(request.email) || Text.IsNullOrWhiteSpace(request.password)
    ensures gate == Answer(BadRequest(InvalidMessage)) <==>
      !Text.IsNullOrWhiteSpace(request.email) && !Text.IsNullOrWhiteSpace(request.password) &&
      !(Validation.IsValidEmail(request.email) && Validation.IsValidPassword(request.password))
    ensures gate == Answer(ServerError) <==>
      !Text.IsNullOrWhiteSpace(request.email) && !Text.IsNullOrWhiteSpace(request.password) &&
      Validation.IsValidEmail(request.email) && Validation.IsValidPassword(request.password) &&
      request.userName.None?
    ensures gate.Proceed? ==>
      Validation.IsValidEmail(request.email) && Validation.IsValidPassword(request.password) &&
      request.userName.Some? &&
      gate.userName == Text.ToLower(request.userName.value) &&
      gate.email == Text.ToLower(request.email.value) &&
      gate.password == request.password.value
  {
    if Text.IsNullOrWhiteSpace(request.email) || Text.IsNullOrWhiteSpace(request.password) then
      Answer(BadRequest(RequiredMessage))
    else if !(Validation.IsValidEmail(request.email) && Validation.IsValidPassword(request.password)) then
      Answer(BadRequest(InvalidMessage))
    else if request.userName.None? then
      Answer(ServerError)
    else
      Proceed(Text.ToLower(request.userName.value), Text.ToLower(request.email.value), request.password.value)
  }

  /** What is handed to the store is already lower case: a second lower-casing changes nothing. */
  lemma RegistrationIsLowerCase(request: AddNewUserModel)
    requires CheckRegistration(request).Proceed?
    ensures var g := CheckRegistration(request);
      Text.ToLower(g.userName) == g.userName && Text.ToLower(g.email) == g.email
  {
    var g := CheckRegistration(request);
    Text.ToLowerIdempotent(request.userName.value);
    Text.ToLowerIdempotent(request.email.value);
  }

  /**
   * Whoever registers can log in with the (lower-cased) name and the same
   * password: the lookup finds the new record and the password checks out
   * against its hash.
   */
  lemma RegisteredUserCanLogIn(users: seq<UserModel>, request: AddNewUserModel,
                               hash: string -> string, verify: (string, string) -> bool)
    requires forall p :: verify(p, hash(p))
    requires CheckRegistration(request).Proceed?
    requires var g := CheckRegistration(request);
      forall u :: u in users ==> u.userName != g.userName && u.userEmail != Some(g.email)
    ensures var g := CheckRegistration(request);
      var stored := UserModel(g.userName, Some(g.email), hash(g.password), DefaultRole);
      FindUser(users + [stored], g.userName) == Some(stored) && verify(g.password, stored.passwordHash)
  {
    var g := CheckRegistration(request);
    var stored := UserModel(g.userName, Some(g.email), hash(g.password), DefaultRole);
    var found := FindUser(users + [stored], g.userName);
    assert stored in users + [stored];
  }

  method RegisterNewUser(db: DbServices, request: AddNewUserModel, hash: string -> string) returns (result: ActionResult)
    requires db.Valid()
    modifies db
    ensures db.Valid() && db.birds == old(db.birds) && db.nextObjectId == old(db.nextObjectId)
    ensures CheckRegistration(request).Answer? ==>
      result == CheckRegistration(request).response && db.users == old(db.users)
    ensures CheckRegistration(request).Proceed? ==>
      var g := CheckRegistration(request);
      var free := forall u :: u in old(db.users) ==> u.userName != g.userName && u.userEmail != Some(g.email);
      (free ==> result == Ok("User registered successfully.") &&
                db.users == old(db.users) + [UserModel(g.userName, Some(g.email), hash(g.password), DefaultRole)]) &&
      (!free ==> result == Conflict("Email already in use.") && db.users == old(db.users))
  {
    var gate := CheckRegistration(request);
    if gate.Answer? {
      return gate.response;
    }
    var isRegistered := db.RegisterUser(gate.userName, gate.email, gate.password, hash);
    if !isRegistered {
      return Conflict("Email already in use.");
    }
    result := Ok("User registered successfully.");
  }

  /**
   * `Login`: unauthorised unless a user has exactly that name and the
   * password checks against its hash; otherwise the token service (which may
   * rotate its secret first) signs a token for that user.
   */
  method Login(db: DbServices, jwt: JwtAuth.JwtAuthenticationService, request: LoginRequest,
               verify: (string, string) -> bool, now: JwtAuth.Instant, entropy: KeyGenerator.Entropy)
    returns (result: ActionResult)
    requires jwt.Valid()
    modifies jwt, jwt.tokenFile
    ensures jwt.Valid()
    ensures var found := FindUser(db.users, request.username);
      (found.None? || !verify(request.password, found.value.passwordHash)) ==>
        result == Unauthorized("Invalid username or password.") && jwt.State() == old(jwt.State())
    ensures var found := FindUser(db.users, request.username);
      (found.Some? && verify(request.password, found.value.passwordHash)) ==>
        jwt.State() == JwtAuth.Rotate(old(jwt.State()), now, jwt.tokenExpirationMinutes, entropy) &&
        result == if jwt.tokenExpirationMinutes > 0
          then OkToken(jwt.codec.encode(JwtAuth.IssuedToken(found.value, jwt.settings, jwt.secretKey, now)))
          else ServerError
  {
    var user := db.AuthenticateUser(request.username, request.password);
    if user.None? || !verify(request.password, user.value.passwordHash) {
      return Unauthorized("Invalid username or password.");
    }
    var token := jwt.GenerateJwtToken(user.value, now, entropy);
    result := if token.Some? then OkToken(token.value) else ServerError;
  }
}
