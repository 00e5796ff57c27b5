/**
 * The JWT secret lifecycle of `JwtAuthenticationService`: one signing secret,
 * persisted with its expiry in a token file, reused while it is live and
 * replaced once it has expired; tokens signed with it; claims read back.
 *
 * Time is whole seconds on the UTC clock.  The JWT wire format and HMAC are
 * abstracted: a token is a record tagged with the secret that signed it, and
 * its text form comes from a `TokenCodec` whose decode undoes its encode.
 */
module JwtAuth {
  import opened Wrappers
  import opened Models
  import KeyGenerator

  /** An instant on the UTC clock, in seconds. */
  type Instant = int

  /** Token lifetime used when `JwtSettings:ExpirationMinutes` is not configured. */
  const DefaultExpirationMinutes := 60

  /** The `JwtSettings` section of the configuration; each entry may be absent. */
  datatype JwtSettings = JwtSettings(
    issuer: Option<string>,
    audience: Option<string>,
    expirationMinutes: Option<int>)

  function ExpirationMinutes(settings: JwtSettings): int {
    settings.expirationMinutes.GetOr(DefaultExpirationMinutes)
  }

  /** `DateTime.AddMinutes` on whole seconds. */
  function AddMinutes(t: Instant, minutes: int): Instant {
    t + minutes * 60
  }

  /** `TokenModel` as persisted in the token file: the secret and, under `CreatedAt`, its expiry. */
  datatype TokenRecord = TokenRecord(token: string, createdAt: Instant)

  /** `IsTokenExpired`: at the expiry instant itself the secret already counts as expired. */
  predicate IsTokenExpired(expiration: Instant, now: Instant) {
    now >= expiration
  }

  /** A secret is expired from its expiry instant on, and stays expired. */
  lemma ExpiryIsFinal(expiration: Instant, now: Instant, later: Instant)
    requires now <= later
    ensures IsTokenExpired(expiration, expiration) && !IsTokenExpired(expiration, expiration - 1)
    ensures IsTokenExpired(expiration, now) ==> IsTokenExpired(expiration, later)
  {
  }

  /** The test `LoadTokenFromFile` applies: the file parsed to a record that has not expired. */
  predicate Reusable(file: Stored<TokenRecord>, now: Instant) {
    file.Present? && !IsTokenExpired(file.value.createdAt, now)
  }

  /**
   * `GetTokenExpirationFromFile`: the recorded expiry, or `now` when the file
   * is missing, unreadable or null -- so that such a file always reads as
   * expired, exactly when the constructor's reuse test would refuse it.
   */
  function ExpirationFromFile(file: Stored<TokenRecord>, now: Instant): (expiration: Instant)
    ensures IsTokenExpired(expiration, now) <==> !Reusable(file, now)
    ensures file.Present? ==> expiration == file.value.createdAt
  {
    if file.Present? then file.value.createdAt else now
  }

  // ---------------------------------------------------------------------------
  // The secret lifecycle as values: the secret a service instance holds in
  // memory and the token file it shares with every other instance.

  datatype SecretState = SecretState(secret: string, file: Stored<TokenRecord>)

  /** The in-memory secret is the one the token file records. */
  predicate Coherent(s: SecretState) {
    s.file.Present? && s.file.value.token == s.secret
  }

  /** A new secret from `entropy`, saved with expiry `now` plus the lifetime. */
  function Fresh(now: Instant, minutes: int, entropy: KeyGenerator.Entropy): SecretState {
    var secret := KeyGenerator.GetSecret(entropy);
    SecretState(secret, Present(TokenRecord(secret, AddMinutes(now, minutes))))
  }

  /**
   * `LoadTokenFromFile`: reuse a live recorded secret, leaving the file as
   * it is, otherwise generate and save one.  Whatever the file held, memory
   * and file agree afterwards.
   */
  function Load(file: Stored<TokenRecord>, now: Instant, minutes: int, entropy: KeyGenerator.Entropy): (s: SecretState)
    ensures Coherent(s)
    ensures Reusable(file, now) ==> s.file == file
    ensures !Reusable(file, now) ==> s == Fresh(now, minutes, entropy)
  {
    if Reusable(file, now) then SecretState(file.value.token, file) else Fresh(now, minutes, entropy)
  }

  /**
   * The rotation step at the start of `GenerateJwtToken`: it happens
   * exactly when the file's record is not reusable, and then replaces both
   * copies of the secret.
   */
  function Rotate(s: SecretState, now: Instant, minutes: int, entropy: KeyGenerator.Entropy): (r: SecretState)
    ensures Reusable(s.file, now) ==> r == s
    ensures !Reusable(s.file, now) ==> r == Fresh(now, minutes, entropy)
  {
    if IsTokenExpired(ExpirationFromFile(s.file, now), now) then Fresh(now, minutes, entropy) else s
  }

  /** A freshly generated secret is a 44-character Base64 text of its entropy and is live until its expiry. */
  lemma FreshSecretIsLive(now: Instant, later: Instant, minutes: int, entropy: KeyGenerator.Entropy)
    requires minutes > 0 && now <= later < now + minutes * 60
    ensures var s := Fresh(now, minutes, entropy);
      Coherent(s) && Reusable(s.file, later) &&
      |s.secret| == 44 && KeyGenerator.Decode(s.secret) == Some(entropy)
  {
  }

  /** After `GenerateJwtToken`'s rotation step the token file always holds a live record. */
  lemma RotateLeavesLiveRecord(s: SecretState, now: Instant, minutes: int, entropy: KeyGenerator.Entropy)
    requires minutes > 0
    ensures var r := Rotate(s, now, minutes, entropy);
      r.file.Present? && !IsTokenExpired(r.file.value.createdAt, now)
  {
  }

  /**
   * Until the recorded expiry, later calls keep the same secret whatever
   * entropy they would have drawn: tokens issued in between share one key.
   */
  lemma SecretStableUntilExpiry(s: SecretState, now: Instant, later: Instant, minutes: int,
                                e1: KeyGenerator.Entropy, e2: KeyGenerator.Entropy)
    requires minutes > 0
    requires var r := Rotate(s, now, minutes, e1); r.file.Present? && later < r.file.value.createdAt
    ensures Rotate(Rotate(s, now, minutes, e1), later, minutes, e2) == Rotate(s, now, minutes, e1)
  {
    var r := Rotate(s, now, minutes, e1);
  }

  /** Rotation keeps memory and file agreeing. */
  lemma RotatePreservesCoherence(s: SecretState, now: Instant, minutes: int, entropy: KeyGenerator.Entropy)
    requires Coherent(s)
    ensures Coherent(Rotate(s, now, minutes, entropy))
  {
  }

  /**
   * A new instance (or a restarted process) that loads the file before the
   * recorded expiry picks up the very secret the previous instance holds.
   */
  lemma RestartReusesSecret(s: SecretState, later: Instant, minutes: int, entropy: KeyGenerator.Entropy)
    requires Coherent(s) && later < s.file.value.createdAt
    ensures Load(s.file, later, minutes, entropy) == s
  {
  }

  /** Two rotations that draw different entropy produce different secrets. */
  lemma RotationChangesSecret(now1: Instant, now2: Instant, minutes: int,
                              e1: KeyGenerator.Entropy, e2: KeyGenerator.Entropy)
    requires e1 != e2
    ensures Fresh(now1, minutes, e1).secret != Fresh(now2, minutes, e2).secret
  {
    KeyGenerator.SecretsDistinct(e1, e2);
  }

  // ---------------------------------------------------------------------------
  // Tokens and their validation.

  /** A signed JWT: its claims, issuer, audience, expiry and the secret that signed it. */
  datatype Token = Token(
    name: Option<string>,
    role: Option<string>,
    issuer: Option<string>,
    audience: Option<string>,
    expires: Instant,
    signingKey: string)

  /** The token `GenerateJwtToken` creates for `user` with secret `secret` at time `now`. */
  function IssuedToken(user: UserModel, settings: JwtSettings, secret: string, now: Instant): Token {
    Token(Some(user.userName), Some(user.role), settings.issuer, settings.audience,
          AddMinutes(now, ExpirationMinutes(settings)), secret)
  }

  /** The compact text form of tokens. */
  datatype TokenCodec = TokenCodec(encode: Token -> string, decode: string -> Option<Token>)

  /** Decoding undoes encoding, and an encoded token contains no space. */
  ghost predicate Sound(codec: TokenCodec) {
    forall t :: codec.decode(codec.encode(t)) == Some(t) && ' ' !in codec.encode(t)
  }

  /** `TokenValidationParameters`: issuer, audience, lifetime and signing key are all checked. */
  datatype ValidationParameters = ValidationParameters(
    validIssuer: Option<string>,
    validAudience: Option<string>,
    issuerSigningKey: string)

  /** `GetTokenValidationParameters` for a given secret. */
  function ParametersFor(settings: JwtSettings, secret: string): ValidationParameters {
    ValidationParameters(settings.issuer, settings.audience, secret)
  }

  datatype TokenError = Malformed | BadSignature | Expired | WrongAudience | WrongIssuer

  /**
   * The token handler's `ValidateToken`, in its order of checks: parse,
   * signature, lifetime (with the handler's clock skew), audience, issuer.
   * An unset valid audience or issuer rejects every token.
   */
  function ValidateToken(text: string, p: ValidationParameters, codec: TokenCodec,
                         now: Instant, clockSkew: nat): (r: Result<Token, TokenError>)
    ensures r.Success? <==>
      && codec.decode(text).Some?
      && codec.decode(text).value.signingKey == p.issuerSigningKey
      && now <= codec.decode(text).value.expires + clockSkew
      && p.validAudience.Some? && codec.decode(text).value.audience == p.validAudience
      && p.validIssuer.Some? && codec.decode(text).value.issuer == p.validIssuer
    ensures r.Success? ==> Some(r.value) == codec.decode(text)
    ensures r == Failure(Malformed) <==> codec.decode(text).None?
  {
    match codec.decode(text)
    case None => Failure(Malformed)
    case Some(t) =>
      if t.signingKey != p.issuerSigningKey then Failure(BadSignature)
      else if now > t.expires + clockSkew then Failure(Expired)
      else if p.validAudience.None? || t.audience != p.validAudience then Failure(WrongAudience)
      else if p.validIssuer.None? || t.issuer != p.validIssuer then Failure(WrongIssuer)
      else Success(t)
  }

  /**
   * `authorizationHeader.Split(" ").Last()`: the text after the last space,
   * or the whole header when it has none.
   */
  function TokenFromHeader(header: string): (token: string)
    ensures ' ' !in token
    ensures |token| <= |header| && token == header[|header| - |token|..]
    ensures |token| < |header| ==> header[|header| - |token| - 1] == ' '
    decreases |header|
  {
    if header == [] then []
    else if header[|header| - 1] == ' ' then []
    else
      var init, last := header[..|header| - 1], header[|header| - 1];
      var rest := TokenFromHeader(init);
      assert header[|header| - |rest| - 1..] == init[|init| - |rest|..] + [last];
      rest + [last]
  }

  /** After a space, a space-free suffix is the whole token. */
  lemma {:induction false} TokenAfterSpace(prefix: string, token: string)
    requires |prefix| > 0 && prefix[|prefix| - 1] == ' ' && ' ' !in token
    ensures TokenFromHeader(prefix + token) == token
    decreases |token|
  {
    if token == [] {
      assert prefix + token == prefix;
    } else {
      var header := prefix + token;
      var init := token[..|token| - 1];
      assert header[..|header| - 1] == prefix + init;
      TokenAfterSpace(prefix, init);
      assert token == init + [token[|token| - 1]];
    }
  }

  /** The `Bearer <token>` header form gives back exactly the token. */
  lemma BearerHeaderGivesToken(token: string)
    requires ' ' !in token
    ensures TokenFromHeader("Bearer " + token) == token
  {
    TokenAfterSpace("Bearer ", token);
  }

  /** A token issued with configured issuer and audience validates, under the same secret, until it expires. */
  lemma IssuedTokenValidates(codec: TokenCodec, user: UserModel, settings: JwtSettings, secret: string,
                             issuedAt: Instant, now: Instant, clockSkew: nat)
    requires Sound(codec)
    requires settings.issuer.Some? && settings.audience.Some?
    requires issuedAt <= now <= AddMinutes(issuedAt, ExpirationMinutes(settings)) + clockSkew
    ensures var t := IssuedToken(user, settings, secret, issuedAt);
      ValidateToken(codec.encode(t), ParametersFor(settings, secret), codec, now, clockSkew) == Success(t)
  {
    var t := IssuedToken(user, settings, secret, issuedAt);
    assert codec.decode(codec.encode(t)) == Some(t);
  }

  /** Once expiry plus the clock skew has passed, the token is refused. */
  lemma ExpiredTokenRejected(codec: TokenCodec, t: Token, p: ValidationParameters, now: Instant, clockSkew: nat)
    requires Sound(codec)
    requires now > t.expires + clockSkew
    ensures ValidateToken(codec.encode(t), p, codec, now, clockSkew).Failure?
  {
    assert codec.decode(codec.encode(t)) == Some(t);
  }

  /** A token signed with any other secret is refused for its signature. */
  lemma ForeignSecretRejected(codec: TokenCodec, t: Token, p: ValidationParameters, now: Instant, clockSkew: nat)
    requires Sound(codec)
    requires t.signingKey != p.issuerSigningKey
    ensures ValidateToken(codec.encode(t), p, codec, now, clockSkew) == Failure(BadSignature)
  {
    assert codec.decode(codec.encode(t)) == Some(t);
  }

  /** Without a configured issuer or audience no token validates at all. */
  lemma UnconfiguredSettingsRejectAll(text: string, settings: JwtSettings, secret: string, codec: TokenCodec,
                                      now: Instant, clockSkew: nat)
    requires settings.issuer.None? || settings.audience.None?
    ensures ValidateToken(text, ParametersFor(settings, secret), codec, now, clockSkew).Failure?
  {
  }

  /**
   * Parameters captured before a rotation (as the bearer middleware does at
   * startup) refuse every token signed after it with a fresh secret.
   */
  lemma CapturedParametersGoStale(codec: TokenCodec, settings: JwtSettings, user: UserModel,
                                  e0: KeyGenerator.Entropy, s: SecretState, now: Instant,
                                  e1: KeyGenerator.Entropy, later: Instant, clockSkew: nat)
    requires Sound(codec) && e0 != e1
    requires !Reusable(s.file, now)
    ensures var captured := ParametersFor(settings, KeyGenerator.GetSecret(e0));
      var r := Rotate(s, now, ExpirationMinutes(settings), e1);
      ValidateToken(codec.encode(IssuedToken(user, settings, r.secret, now)), captured, codec, later, clockSkew)
        == Failure(BadSignature)
  {
    var r := Rotate(s, now, ExpirationMinutes(settings), e1);
    KeyGenerator.SecretsDistinct(e0, e1);
    ForeignSecretRejected(codec, IssuedToken(user, settings, r.secret, now),
                          ParametersFor(settings, KeyGenerator.GetSecret(e0)), later, clockSkew);
  }

  // ---------------------------------------------------------------------------
  // The service object.

  /** The token file on disk, shared by every service instance of the process and by later processes. */
  class SecretFile {
    var contents: Stored<TokenRecord>

    constructor (contents: Stored<TokenRecord>)
      ensures this.contents == contents
    {
      this.contents := contents;
    }
  }

  class JwtAuthenticationService {
    const settings: JwtSettings
    const tokenExpirationMinutes: int
    const codec: TokenCodec
    const tokenFile: SecretFile
    var secretKey: string

    ghost predicate Valid()
      reads this
    {
      Sound(codec) && tokenExpirationMinutes == ExpirationMinutes(settings)
    }

    /** This instance's secret together with what the token file holds. */
    function State(): SecretState
      reads this, tokenFile
    {
      SecretState(secretKey, tokenFile.contents)
    }

    constructor (configuration: JwtSettings, codec: TokenCodec, tokenFile: SecretFile,
                 now: Instant, entropy: KeyGenerator.Entropy)
      requires Sound(codec)
      modifies tokenFile
      ensures Valid() && settings == configuration && this.codec == codec && this.tokenFile == tokenFile
      ensures State() == Load(old(tokenFile.contents), now, ExpirationMinutes(configuration), entropy)
    {
      settings := configuration;
      tokenExpirationMinutes := ExpirationMinutes(configuration);
      this.codec := codec;
      this.tokenFile := tokenFile;
      secretKey := "";
      new;
      LoadTokenFromFile(now, entropy);
    }

    method LoadTokenFromFile(now: Instant, entropy: KeyGenerator.Entropy)
      modifies this, tokenFile
      ensures State() == Load(old(tokenFile.contents), now, tokenExpirationMinutes, entropy)
    {
      var stored := tokenFile.contents;
      if stored.Present? && !IsTokenExpired(stored.value.createdAt, now) {
        secretKey := stored.value.token;
        return;
      }
      secretKey := KeyGenerator.GetSecret(entropy);
      SaveTokenToFile(secretKey, now);
    }

    method SaveTokenToFile(token: string, now: Instant)
      modifies tokenFile
      ensures tokenFile.contents == Present(TokenRecord(token, AddMinutes(now, tokenExpirationMinutes)))
    {
      tokenFile.contents := Present(TokenRecord(token, AddMinutes(now, tokenExpirationMinutes)));
    }

    /** Issuer and audience from the configuration; the signing key is this instance's current secret. */
    function GetTokenValidationParameters(): (p: ValidationParameters)
      reads this
      ensures p.issuerSigningKey == secretKey
      ensures p.validIssuer == settings.issuer && p.validAudience == settings.audience
    {
      ParametersFor(settings, secretKey)
    }

    /** The name claim of a valid bearer token, "" when it has none; invalid tokens raise. */
    function GetUsernameFromToken(authorizationHeader: string, now: Instant, clockSkew: nat): (name: Result<string, TokenError>)
      reads this
      ensures var v := ValidateToken(TokenFromHeader(authorizationHeader), GetTokenValidationParameters(), codec, now, clockSkew);
        (name.Success? <==> v.Success?) &&
        (v.Failure? ==> name.error == v.error) &&
        (v.Success? && v.value.name.Some? ==> name.value == v.value.name.value) &&
        (v.Success? && v.value.name.None? ==> name.value == "")
    {
      match ValidateToken(TokenFromHeader(authorizationHeader), GetTokenValidationParameters(), codec, now, clockSkew)
      case Failure(e) => Failure(e)
      case Success(t) => Success(t.name.GetOr(""))
    }

    /** The role claim of a valid bearer token, "User" when it has none; invalid tokens raise. */
    function GetRoleFromToken(authorizationHeader: string, now: Instant, clockSkew: nat): (role: Result<string, TokenError>)
      reads this
      ensures var v := ValidateToken(TokenFromHeader(authorizationHeader), GetTokenValidationParameters(), codec, now, clockSkew);
        (role.Success? <==> v.Success?) &&
        (v.Failure? ==> role.error == v.error) &&
        (v.Success? && v.value.role.Some? ==> role.value == v.value.role.value) &&
        (v.Success? && v.value.role.None? ==> role.value == DefaultRole)
    {
      match ValidateToken(TokenFromHeader(authorizationHeader), GetTokenValidationParameters(), codec, now, clockSkew)
      case Failure(e) => Failure(e)
      case Success(t) => Success(t.role.GetOr(DefaultRole))
    }

    /**
     * Rotates the secret if the file says it has expired, then signs a token
     * for `user`.  The token handler refuses a lifetime that is not positive
     * (expiry not after the not-before instant), after the rotation.
     */
    method GenerateJwtToken(user: UserModel, now: Instant, entropy: KeyGenerator.Entropy) returns (jwt: Option<string>)
      requires Valid()
      modifies this, tokenFile
      ensures Valid()
      ensures State() == Rotate(old(State()), now, tokenExpirationMinutes, entropy)
      ensures jwt.Some? <==> tokenExpirationMinutes > 0
      ensures jwt.Some? ==> jwt.value == codec.encode(IssuedToken(user, settings, secretKey, now))
    {
      if IsTokenExpired(ExpirationFromFile(tokenFile.contents, now), now) {
        secretKey := KeyGenerator.GetSecret(entropy);
        SaveTokenToFile(secretKey, now);
      }
      if tokenExpirationMinutes <= 0 {
        return None;
      }
      jwt := Some(codec.encode(IssuedToken(user, settings, secretKey, now)));
    }
  }

  /** Name and role read back from a `Bearer` header carrying a token this service issued. */
  lemma IssuedClaimsReadBack(svc: JwtAuthenticationService, user: UserModel, issuedAt: Instant,
                             now: Instant, clockSkew: nat)
    requires svc.Valid()
    requires svc.settings.issuer.Some? && svc.settings.audience.Some?
    requires issuedAt <= now <= AddMinutes(issuedAt, svc.tokenExpirationMinutes) + clockSkew
    ensures var header := "Bearer " + svc.codec.encode(IssuedToken(user, svc.settings, svc.secretKey, issuedAt));
      svc.GetUsernameFromToken(header, now, clockSkew) == Success(user.userName) &&
      svc.GetRoleFromToken(header, now, clockSkew) == Success(user.role)
  {
    var t := IssuedToken(user, svc.settings, svc.secretKey, issuedAt);
    assert svc.codec.decode(svc.codec.encode(t)) == Some(t) && ' ' !in svc.codec.encode(t);
    BearerHeaderGivesToken(svc.codec.encode(t));
    IssuedTokenValidates(svc.codec, user, svc.settings, svc.secretKey, issuedAt, now, clockSkew);
  }

  /** A valid token without a name or role claim reads as "" and "User". */
  lemma MissingClaimsDefault(svc: JwtAuthenticationService, t: Token, now: Instant, clockSkew: nat)
    requires svc.Valid() && t.name.None? && t.role.None?
    requires ValidateToken(svc.codec.encode(t), svc.GetTokenValidationParameters(), svc.codec, now, clockSkew).Success?
    ensures svc.GetUsernameFromToken("Bearer " + svc.codec.encode(t), now, clockSkew) == Success("")
    ensures svc.GetRoleFromToken("Bearer " + svc.codec.encode(t), now, clockSkew) == Success("User")
  {
    assert svc.codec.decode(svc.codec.encode(t)) == Some(t) && ' ' !in svc.codec.encode(t);
    BearerHeaderGivesToken(svc.codec.encode(t));
  }
}
