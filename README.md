# LoftViewer API core, modelled in Dafny

LoftViewer is a pigeon-loft back end. Users register and log in and receive JWTs. Administrators manage the birds of the loft. A background refresh keeps the local weather under a daily API quota. This project models the core of that back end and proves its properties:

- **JWT secret lifecycle.** One signing secret lives in memory and in a token file, together with its expiry. A live secret is reused; once expired, it is replaced by 32 random bytes in Base64. Tokens are signed with the secret. Their name and role claims are read back from a `Bearer` header.
- **Base64 encoding** of the secret, per section 4 of RFC 4648, with a decoder that proves the encoding round-trips.
- **Compass conversion.** A wind bearing becomes one of sixteen compass points, with C#'s rounding and C#'s truncating `%`.
- **E-mail and password format checks**, including .NET's rule that `$` also matches before a final line feed.
- **User and bird store.** Users and birds are kept as in-memory tables in insertion order. Birds carry MongoDB ObjectIds: 24 hexadecimal digits, stored in lower case, generated when absent, and unique.
- **Bird admin actions.** Add, bulk JSON upload, update, delete and image upload, each with its guards and defaults.
- **Registration and login guard chains.**
- **Weather refresh** under the 999-calls-per-day quota, with the call count persisted in a log, and the condition-to-icon mapping.

Time is whole seconds on the UTC clock. Files on disk are values that can be `Missing`, `Unreadable` (the parser threw or read `null`) or `Present`. I/O, randomness, the HTTP APIs, password hashing, image resizing and the JWT wire format become parameters:

- random bytes: an `Entropy` value;
- the HTTP APIs: a `WeatherApi` of two functions;
- password hashing: `hash`/`verify` functions;
- image resizing and saving: `resize`/`saveImage` functions, `None` where they throw;
- the JWT wire format: a `TokenCodec` whose decode undoes its encode.

Modules, one file each:

| module | file |
|---|---|
| `Wrappers` | `wrappers.dfy` |
| `Models` | `models.dfy` |
| `KeyGenerator` | `key_generator.dfy` |
| `WindDirection` | `wind_direction.dfy` |
| `Text` | `text.dfy` |
| `Validation` | `validation.dfy` |
| `JwtAuth` | `jwt_auth.dfy` |
| `Database` | `database.dfy` |
| `AdminBirds` | `admin_birds.dfy` |
| `Weather` | `weather.dfy` |
| `UserAuth` | `user_auth.dfy` |

Where the code does something other than its stated intent, the model follows the code:

- **Negative wind bearings.** C#'s `%` truncates, so bearings whose rounded sector is a negative multiple of 16 still give "N". One example is -371..-349 degrees. Every other bearing below -11 throws.
- **Password length.** A 17-character password whose last character is a line feed passes the "8-16 characters" pattern.
- **Password special character.** The look-ahead for `[\W_]` can reach a final line feed, which is a non-word character. So "Password1" followed by a line feed is accepted although it has no special character before the line feed.

## Model

| member | source | states |
|---|---|---|
| KeyGenerator.Base64Value | Utilities/KeyGenerator.cs:14 | each Base64 character is the image of exactly one 6-bit value |
| KeyGenerator.CharValueRoundTrip | Utilities/KeyGenerator.cs:14 | value to character to value is the identity |
| KeyGenerator.BytesSextets | Utilities/KeyGenerator.cs:14 | regrouping the 6-bit groups of any byte string gives the bytes back |
| KeyGenerator.EncodeLength | Utilities/KeyGenerator.cs:12-14 | the Base64 text of n bytes has 4*ceil(n/3) characters, a multiple of 4 |
| KeyGenerator.DecodeEncode | Utilities/KeyGenerator.cs:14 | Base64 decoding inverts `Convert.ToBase64String` on every byte string |
| KeyGenerator.GenerateStrongSecret | Utilities/KeyGenerator.cs:8-15 | the secret is 44 characters: 43 Base64 characters and one '=', decoding to exactly the 32 drawn bytes |
| KeyGenerator.GetSecret | Utilities/KeyGenerator.cs:18 | a 44-character secret that decodes to the drawn bytes |
| KeyGenerator.SecretsDistinct | Utilities/KeyGenerator.cs:10-14 | different random draws give different secrets |
| WindDirection.RoundedSector | Utilities/ConvertWinDirection.cs:8 | the rounded value is within 45/90 of degrees/22.5 (no tie is possible) |
| WindDirection.RoundedSectorIsNearest | Utilities/ConvertWinDirection.cs:8 | `Math.Round(degrees / 22.5)` is strictly within one half of the quotient |
| WindDirection.RoundedSectorUnique | Utilities/ConvertWinDirection.cs:8 | no other integer is within one half, so the rounding mode is irrelevant |
| WindDirection.Remainder16 | Utilities/ConvertWinDirection.cs:8 | C#'s `% 16`: the remainder has the dividend's sign and is zero exactly for multiples of 16 |
| WindDirection.ConvertWindDirection | Utilities/ConvertWinDirection.cs:5-10 | a label is returned iff degrees >= -11 or the rounded sector is a multiple of 16 (otherwise the array access throws); the label is one of the sixteen; for degrees >= 0 it is the label at round(degrees/22.5) mod 16; every negative bearing that gives a label gives "N" |
| WindDirection.NonNegativeBearingsConvert | Utilities/ConvertWinDirection.cs:7-9 | every non-negative bearing indexes 0..15 and yields that label |
| WindDirection.CardinalPoints | Utilities/ConvertWinDirection.cs:7-9 | 0, 90, 180, 270 give N, E, S, W |
| WindDirection.SectorBoundaries | Utilities/ConvertWinDirection.cs:7-9 | 11 is N, 12 is NNE, 348 is NNW, 349 is N again |
| WindDirection.NegativeExamples | Utilities/ConvertWinDirection.cs:8-9 | -11 gives N, -12 throws, -360 gives N |
| WindDirection.FullTurn | Utilities/ConvertWinDirection.cs:7-9 | adding 360 degrees keeps the label for every bearing from -11 up |
| WindDirection.NegativeBearingsThrow | Utilities/ConvertWinDirection.cs:8-9 | every bearing from -348 to -12 throws |
| Text.ToLower | Controllers/UserAuthController.cs:51 | same length, each character lower-cased |
| JwtAuth.ExpiryIsFinal | Services/JwtAuthService.cs:55-58 | a secret counts as expired from its expiry instant itself on, not a second before, and stays expired at every later instant |
| Text.ToLowerIdempotent | Controllers/UserAuthController.cs:51 | lower-casing twice equals lower-casing once |
| Validation.EmailShapeMatchesPattern | Utilities/EmailAndPasswordValidation.cs:11-12 | the computed shape check (first '@', a '.' with text on both sides, no '@' or white space elsewhere) holds iff `[^@\s]+@[^@\s]+\.[^@\s]+` matches the whole text |
| Validation.IsValidEmail | Utilities/EmailAndPasswordValidation.cs:7-13 | true iff the e-mail is non-null and the anchored pattern matches it, a final line feed being allowed by `$` |
| Validation.PasswordShapeMatchesPattern | Utilities/EmailAndPasswordValidation.cs:19-21 | the computed check (one line of 8 to 16 characters with an upper-case letter and a digit, and a special character in it or a final line feed after it) holds iff each look-ahead finds its class before any line feed and `.{8,16}$` matches |
| Validation.IsValidPassword | Utilities/EmailAndPasswordValidation.cs:15-22 | true iff the password is non-null and `^(?=.*[A-Z])(?=.*\d)(?=.*[\W_]).{8,16}$` matches it, with each look-ahead scanning up to the first line feed and able to take that line feed as `[\W_]`, and `$` matching at the end or before a final line feed |
| Validation.EmptyNeverMatches | Utilities/EmailAndPasswordValidation.cs:9-10 | null and "" are refused, as the patterns alone would also refuse "" |
| Validation.EmailAccepted | Utilities/EmailAndPasswordValidation.cs:11-12 | "a@b.c" and "a@b.c" followed by a line feed are accepted |
| Validation.EmailWithoutDotRejected | Utilities/EmailAndPasswordValidation.cs:11-12 | "a@b" is refused |
| Validation.EmailEmptyDomainLabelRejected | Utilities/EmailAndPasswordValidation.cs:11-12 | "a@.c" is refused |
| Validation.EmailWithSpaceRejected | Utilities/EmailAndPasswordValidation.cs:11-12 | "a b@c.d" is refused |
| Validation.EmailWithTwoAtsRejected | Utilities/EmailAndPasswordValidation.cs:11-12 | "a@@b.c" is refused |
| Validation.PasswordLengthBounds | Utilities/EmailAndPasswordValidation.cs:20-21 | 7 characters, or 17 not ending in a line feed, are refused whatever they are |
| Validation.PasswordAccepted | Utilities/EmailAndPasswordValidation.cs:20-21 | "Password1!" is accepted |
| Validation.PasswordWithoutSpecialRejected | Utilities/EmailAndPasswordValidation.cs:20-21 | "Password1" is refused for lack of a special character |
| Validation.PasswordFinalLineFeedCountsAsSpecial | Utilities/EmailAndPasswordValidation.cs:20-21 | "Password1" followed by a line feed is accepted, while "Password1" alone is refused |
| Validation.PasswordFinalLineFeedAccepted | Utilities/EmailAndPasswordValidation.cs:20-21 | a 16-character valid core plus a final line feed (17 characters) is accepted |
| JwtAuth.ExpirationFromFile | Services/JwtAuthService.cs:138-155 | the expiry read from the file counts as reached exactly when the constructor's reuse test fails (missing, unreadable, null or expired record) |
| JwtAuth.Load | Services/JwtAuthService.cs:28-53 | a live recorded secret is reused with the file left as it is; otherwise a fresh secret is generated and saved; either way memory and file agree afterwards |
| JwtAuth.FreshSecretIsLive | Services/JwtAuthService.cs:50-52 | a newly generated and saved secret is 44 Base64 characters of its bytes and stays reusable until now plus the lifetime |
| JwtAuth.Rotate | Services/JwtAuthService.cs:109-113 | the secret is replaced, in memory and file, exactly when the file's record is not reusable (missing, unreadable or expired); otherwise nothing changes |
| JwtAuth.RotateLeavesLiveRecord | Services/JwtAuthService.cs:109-113 | after the rotation step the file holds a record that has not expired (positive lifetime) |
| JwtAuth.SecretStableUntilExpiry | Services/JwtAuthService.cs:109-113 | later token requests before the recorded expiry keep the same secret |
| JwtAuth.RotatePreservesCoherence | Services/JwtAuthService.cs:109-113 | rotation keeps memory and file agreeing |
| JwtAuth.RestartReusesSecret | Services/JwtAuthService.cs:28-42 | a new instance loading the file before its expiry picks up the same secret |
| JwtAuth.RotationChangesSecret | Services/JwtAuthService.cs:111 | rotations drawing different bytes give different secrets |
| JwtAuth.ValidateToken | Services/JwtAuthService.cs:92 | a token text validates iff it parses, is signed with the expected key, is within its lifetime plus the skew, and carries the configured audience and issuer (both configured); the validated token is the parsed one; "malformed" exactly when it does not parse |
| JwtAuth.TokenFromHeader | Services/JwtAuthService.cs:90 | the result is the space-free suffix of the header that follows its last space (or the whole header) |
| JwtAuth.TokenAfterSpace | Services/JwtAuthService.cs:90 | after a space, a space-free tail is returned whole |
| JwtAuth.BearerHeaderGivesToken | Services/JwtAuthService.cs:99 | "Bearer " + token gives the token back |
| JwtAuth.IssuedTokenValidates | Services/JwtAuthService.cs:73-86 | a token issued with configured issuer and audience validates under the same secret from its issue until expiry plus skew, yielding that token |
| JwtAuth.ExpiredTokenRejected | Services/JwtAuthService.cs:80 | after expiry plus the clock skew a token is refused |
| JwtAuth.ForeignSecretRejected | Services/JwtAuthService.cs:81-84 | a token signed with another secret is refused for its signature |
| JwtAuth.UnconfiguredSettingsRejectAll | Services/JwtAuthService.cs:78-83 | with no configured issuer or audience no token validates |
| JwtAuth.CapturedParametersGoStale | Program.cs:21-24 | validation parameters captured before a rotation refuse every token signed after it |
| JwtAuth.JwtAuthenticationService.constructor | Services/JwtAuthService.cs:19-26 | the lifetime is the configured minutes or 60, and the secret state is the load of the token file |
| JwtAuth.JwtAuthenticationService.LoadTokenFromFile | Services/JwtAuthService.cs:28-53 | memory and file become the load result: the live recorded secret, or a fresh one saved with its expiry |
| JwtAuth.JwtAuthenticationService.SaveTokenToFile | Services/JwtAuthService.cs:60-71 | the file holds the token with expiry now plus the lifetime |
| JwtAuth.JwtAuthenticationService.GetTokenValidationParameters | Services/JwtAuthService.cs:73-86 | tokens are checked against the configured issuer and audience and against this instance's current secret |
| JwtAuth.JwtAuthenticationService.GetUsernameFromToken | Services/JwtAuthService.cs:88-95 | the token after the header's last space is validated; an invalid token raises the validation error; a valid one gives its name claim, or "" without one |
| JwtAuth.JwtAuthenticationService.GetRoleFromToken | Services/JwtAuthService.cs:97-105 | the token after the header's last space is validated; an invalid token raises the validation error; a valid one gives its role claim, or "User" without one |
| JwtAuth.JwtAuthenticationService.GenerateJwtToken | Services/JwtAuthService.cs:107-136 | the secret state is rotated iff expired; a token is produced iff the lifetime is positive, carrying the user's name and role, issuer, audience, expiry now plus the lifetime, signed with the current secret |
| JwtAuth.IssuedClaimsReadBack | Services/JwtAuthService.cs:88-105 | name and role of an issued token come back from its Bearer header until it expires |
| JwtAuth.MissingClaimsDefault | Services/JwtAuthService.cs:94-104 | a valid token without name or role claim reads as "" and "User" |
| Database.FirstIndex | Services/DbServices.cs:25 | the first position satisfying the filter, or none when no element does |
| Database.CanonicalIdFixed | Services/DbServices.cs:56-57 | a stored id parses as an ObjectId and denotes itself |
| Database.GeneratedId | Services/DbServices.cs:59-60 | generated ids are 24 lower-case hexadecimal digits |
| Database.FindUser | Services/DbServices.cs:43 | a user with exactly the name, or none iff no user has it |
| Database.FindByNameOrNumber | Services/DbServices.cs:68-73 | a stored bird with the same name or the same number, or none iff no bird shares either |
| Database.FindById | Services/DbServices.cs:56-57 | the bird with that id, or none iff there is none |
| Database.InsertBird | Services/DbServices.cs:59-60 | an insert appends exactly one bird, under the next generated id (empty id) or the given lower-cased id, unless the id is malformed (invalid-id failure) or already stored (duplicate-key failure, exactly then), in which case no row changes; the generator advances exactly for an empty id; a well-keyed table stays well keyed |
| Database.ReplaceById | Services/DbServices.cs:62-63 | the row with that id is replaced wholesale, every other row is unchanged |
| Database.RemoveById | Services/DbServices.cs:65-66 | exactly the birds with other ids remain, one fewer when the id was stored |
| Database.DbServices.RegisterUser | Services/DbServices.cs:23-38 | registration succeeds iff no user has the name or the e-mail; then exactly one user with name, e-mail, password hash and role "User" is appended; uniqueness is kept |
| Database.DbServices.AuthenticateUser | Services/DbServices.cs:41-51 | the user with exactly that name, password not consulted |
| Database.DbServices.FindByNameOrNumberAsync | Services/DbServices.cs:68-73 | the first bird sharing the name or the number |
| Database.DbServices.GetById | Services/DbServices.cs:56-57 | a malformed id fails; otherwise the bird with that ObjectId, if any |
| Database.DbServices.Create | Services/DbServices.cs:59-60 | the tables after the insert are the insert specification's |
| Database.DbServices.Update | Services/DbServices.cs:62-63 | a malformed id fails; otherwise the row with that id is replaced |
| Database.DbServices.Delete | Services/DbServices.cs:65-66 | a malformed id fails; otherwise the row with that id is removed |
| AdminBirds.ResizeUpload | Utilities/ImageResizerHelper.cs:17-19 | a zero-length file never decodes, so resizing it throws; any other file is resized by the image library |
| AdminBirds.NewBird | Controllers/AuthBirdController.cs:28-41 | the record fails exactly when a non-empty image came and resizing threw; otherwise it keeps name and number, has every descriptive field present (given value else "N/A"), and has the resized bytes iff a non-empty image came |
| AdminBirds.MergeUpdate | Controllers/AuthBirdController.cs:114-126 | the record fails exactly when a non-empty image came and resizing threw; otherwise it keeps the id, falls back to stored name, number and image bytes, resets omitted descriptive fields to "N/A" and drops the image path |
| AdminBirds.UpdateMatchesAdd | Controllers/AuthBirdController.cs:114-126 | with name, number and image supplied an update fails exactly when an add would, and otherwise writes what an add would, under the stored id |
| AdminBirds.MergeUpdateIdempotent | Controllers/AuthBirdController.cs:114-126 | applying the same successful update twice equals applying it once |
| AdminBirds.UploadStep | Controllers/AuthBirdController.cs:72-82 | a bird is skipped exactly when a stored bird has its name or number; otherwise it is inserted and listed as added, or the insert throws, which marks the walk failed and changes no row; after a failure nothing happens |
| AdminBirds.UploadAll | Controllers/AuthBirdController.cs:67-96 | after an insert throws nothing more is processed; when the walk completes, added plus skipped grows by exactly the number of birds in the file |
| AdminBirds.UploadAllConcat | Controllers/AuthBirdController.cs:70-83 | walking two pieces of a file in turn is walking the whole file |
| AdminBirds.UploadAllStepByStep | Controllers/AuthBirdController.cs:70-83 | the state after the first k+1 birds is one upload step from the state after the first k, so each bird is added or skipped by the step rule against the store as it stands at its turn |
| AdminBirds.UploadStepAppendsDistinct | Controllers/AuthBirdController.cs:72-82 | one step keeps ids unique, only appends, appends exactly when it adds, and an appended bird shares neither name nor number with any stored row; the bird is skipped iff a stored bird matches it |
| AdminBirds.UploadAppendsDistinct | Controllers/AuthBirdController.cs:70-82 | the upload only appends, keeps ids unique, and every appended bird differs in name and number from all rows before it, so a later in-file duplicate of an added bird is never added |
| AdminBirds.LaterDuplicateSkipped | Controllers/AuthBirdController.cs:70-82 | once a bird of the file is added, a later bird of the same file sharing its name or number is skipped at its turn, unless an insert in between threw |
| AdminBirds.SkippedPairs | Controllers/AuthBirdController.cs:90 | the report lists the name and number of each skipped bird, in order |
| AdminBirds.AddBird | Controllers/AuthBirdController.cs:20-45 | Conflict and no change when a bird shares name or number; 500 and no change when resizing the image throws; otherwise the new record is inserted and returned |
| AdminBirds.UploadOne | Controllers/AuthBirdController.cs:72-82 | one bird of the file is skipped or inserted exactly as the upload step specifies, and the store stays valid |
| AdminBirds.UploadEach | Controllers/AuthBirdController.cs:67-83 | the store and the added and skipped lists after the loop are those of the upload fold over the whole file |
| AdminBirds.UploadJson | Controllers/AuthBirdController.cs:49-97 | BadRequest with no change for a missing or empty file and for a null or empty list; 500 on a parse error; otherwise the store after the upload fold, and Ok with the counts or 500 if an insert threw |
| AdminBirds.UpdateBird | Controllers/AuthBirdController.cs:101-130 | BadRequest for a non-ObjectId id, NotFound for a missing bird, 500 when resizing the image throws, all with no change; otherwise the merged record replaces the stored one |
| AdminBirds.DeleteBird | Controllers/AuthBirdController.cs:134-146 | NotFound with no change for a missing bird; otherwise exactly that bird is removed |
| AdminBirds.ImageBird | Controllers/AuthBirdController.cs:165-170 | the record keeps only name, number and the image path; descriptive fields and image bytes are dropped |
| AdminBirds.EmptyUploadIsNeverSaved | Controllers/AuthBirdController.cs:152-160 | a zero-length upload passes the form check but resizing it throws, so nothing is saved |
| AdminBirds.SavedPathComesFromResizedImage | Controllers/AuthBirdController.cs:159-160 | a path exists iff the upload is non-empty, resizes and the resized bytes are written; it is the path of that write |
| AdminBirds.UploadBird | Controllers/AuthBirdController.cs:150-174 | BadRequest unless image, name and number are present; 500 with no change when resizing or saving the image throws (always for a zero-length image); otherwise a bird with name, number and saved image path is inserted |
| Weather.IconFor | Services/WeatherService.cs:95-104 | each named condition has its own icon, mist, fog and haze share one, and the default icon means none of them |
| Weather.GetWeather | Services/WeatherService.cs:69-127 | null iff no coordinates, failed fetch or an unconvertible wind bearing; otherwise weather for that city at now with the mapped icon and a compass label |
| Weather.LoadApiCallCount | Services/WeatherService.cs:195-213 | the logged count when it was saved within the current UTC day (from the last midnight, 86400 seconds), otherwise 0, also for a missing or unreadable log |
| Weather.SavedCountLastsTheDay | Services/WeatherService.cs:195-231 | a saved count reloads the same UTC day and reads as 0 from the next day on |
| Weather.UnreadableLogStartsAtZero | Services/WeatherService.cs:195-213 | a missing or unreadable log gives 0 |
| Weather.Refresh | Services/WeatherService.cs:43-67 | at the quota nothing happens; below it an unreadable weather file aborts with no change; otherwise the saved city (else "Tampa") is fetched, and the outcome is an update with exactly the fetched weather iff the fetch gives data, else a failed fetch for that city with no change; on an update the count rises by one, the weather is saved and the saved log reloads to the count |
| Weather.RefreshKeepsCity | Services/WeatherService.cs:45-57 | the city refreshed is the saved one, and successful refreshes save weather for that same city |
| Weather.QuotaNeverExceeded | Services/WeatherService.cs:46-64 | starting at or under 999, any run of refreshes never lowers the count and never passes 999 |
| Weather.QuotaNotResetWhileRunning | Services/WeatherService.cs:46-50 | once at the quota, a running service skips every later refresh on any day |
| Weather.WeatherService.constructor | Services/WeatherService.cs:22-36 | the count starts as the log's count for today |
| Weather.WeatherService.UpdateWeather | Services/WeatherService.cs:43-67 | the new count, weather file and log are the refresh specification's |
| Weather.WeatherService.SaveApiCallCount | Services/WeatherService.cs:215-231 | the log holds now and the count, and reloads to the count |
| UserAuth.CheckRegistration | Controllers/UserAuthController.cs:43-56 | "required" exactly for a null or blank e-mail or password, before any format check; "invalid" exactly for a bad format; otherwise the lower-cased name and e-mail go on |
| UserAuth.RegistrationIsLowerCase | Controllers/UserAuthController.cs:51 | what reaches the store is already lower case |
| UserAuth.RegisteredUserCanLogIn | Controllers/UserAuthController.cs:28-34 | after a successful registration the lower-cased name finds the new record and the password verifies against its hash |
| UserAuth.RegisterNewUser | Controllers/UserAuthController.cs:39-64 | guard answers leave the table untouched; otherwise Ok with exactly one user appended, or "Email already in use." whichever field clashed |
| UserAuth.Login | Controllers/UserAuthController.cs:26-36 | Unauthorized, with no rotation, unless the named user exists and the password verifies; then the secret is rotated if expired and a token for that user is returned |

## Left out

- The JWT wire format, HMAC-SHA256 and the token handler's internals: a token is a record tagged with the secret that signed it. Its text form comes from a codec assumed to round-trip and to contain no space. Signature checking compares secrets.
- The token handler's clock skew is a parameter, so the exact rejection instant is not pinned. Its not-before and issued-at claims are not modelled.
- `JwtSettings:ExpirationMinutes` is taken as an already parsed optional integer. A non-numeric value, which makes the constructor throw, is not modelled.
- A token file whose record has a null `Token`: the model's record always carries a string.
- Concurrency. There is no lock around check-then-rotate, and none is added. Each weather service instance runs its own timer. Scoped instances are modelled by loading the shared token file again (`JwtAuth.RestartReusesSecret`).
- File I/O and JSON: files are `Missing`, `Unreadable` or `Present` values. Every write succeeds in the model. The weather service catches and logs its write failures; the token-file write does not catch them (next line).
- JwtAuth.JwtAuthenticationService.GenerateJwtToken: a failing token-file write is not modelled. In the source `SaveTokenToFile` throws after the new secret is already in memory, so login answers 500 and memory and file disagree; the constructor throws the same way.
- Randomness: the 32 random bytes are an input.
- BCrypt hashing and verification: `hash` and `verify` functions. Their salting is not modelled.
- MongoDB. Collections are sequences in insertion order, and "first" means first in that order.
  - ObjectId generation is a counter rendered as 24 hexadecimal digits. A generated id can collide with a stored one, which the model reports as a duplicate key.
  - `UserId` is not modelled because the core never reads it.
  - `GetAsync` is not modelled (a plain read of all birds).
- AdminBirds.UploadAll: its own contract states only that a failure is final and that a completed walk accounts for every bird. Which birds are added and which skipped is stated per bird by `AdminBirds.UploadStep` together with `AdminBirds.UploadAllStepByStep` and `AdminBirds.LaterDuplicateSkipped`.
- Database.DbServices.constructor: the tables start with unique user names and e-mails, and `DbServices.RegisterUser` keeps them so. The store itself has no unique index, so a table that already holds duplicates is not modelled.
- Database.DbServices.Update: a replacement whose id differs from the filter's id (which the server refuses) is excluded by its precondition. The only caller always passes the stored id.
- ASP.NET model binding and validation of forms and bodies: every form field is modelled as possibly absent, and an empty image upload as zero bytes.
- Image resizing and saving (`ImageResizerHelper`): `resize`/`saveImage` functions that give `None` where the image library or the file write throws. The loop of `ResizeImageAsync` that shrinks the image by 10% and lowers the JPEG quality until the result is at most 16 MB is not modelled; it is part of what `resize` stands for.
- The weather HTTP calls: functions returning `None` for "no result or exception". Temperature and wind speed arrive already rounded as text, because `Math.Round` on doubles is floating point.
- The weather API key check in the weather service's constructor, and the two-minute timer that schedules refreshes.
- Weather.RunRefreshes: goes on after an `Aborted` refresh. In the source the exception escapes the timer's `async void` callback, which ends the process.
- A saved weather file whose `City` is null.
- `LoadWeatherDataAsync`, the bird and weather read controllers, `authService.cs`, `UserService.cs` and the DI/CORS wiring of `Program.cs`, apart from the captured validation parameters.
- Regular expressions: `\d` and `\w` are modelled on ASCII, while .NET also admits other Unicode digits and letters. `\s` is modelled exactly as .NET's white-space set.
- `ToLower` is modelled on ASCII letters only.
- Validation.IsValidPassword: the length bound `.{8,16}` counts characters (Unicode scalar values), while .NET counts UTF-16 code units. A password with characters outside the Basic Multilingual Plane is therefore measured shorter here than by .NET (each such character counts once here, twice there).
