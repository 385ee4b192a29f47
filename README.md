# NexChat authentication core in Dafny

This project models the account-onboarding and login flow of the NexChat
backend. A signup request stores a pending registration in the `Otp`
collection and mails a six-digit one-time code. A verify request with that
code promotes the registration to a user in the `User` collection and sets a
seven-day session cookie named `jwt`. A login request checks a password
against the stored bcrypt hash and sets the same cookie. Logout clears it.
The `Otp` collection has a TTL index that lets the database drop a record
300 seconds after its `createdAt`.

Files:

- `wrappers.dfy`: the Option and Result types.
- `otp_model.dfy` (module `OtpModel`): the `Otp` schema, meaning its required
  fields, its defaults and its TTL. It also holds the collection queries the
  controller runs: `deleteMany`, `findOne` and `deleteOne`.
- `utils.dfy` (module `Utils`): `generateOTP` as the decimal rendering of a
  `crypto.randomInt` draw, the cookie options, the token claims, and
  `generateToken` as a method over a response object.
- `auth_controller.dfy` (module `AuthController`): one pure step function
  per handler, over a `Store` of both collections. Each returns the new
  stores and the status and message the handler sends. It also defines the
  invariant `Inv`.
- `auth_invariants.dfy` (module `AuthInvariants`): what each request does to
  the stores. It proves that every sequential run of requests keeps `Inv`,
  and it states the signup → verify → login flows.
- `auth_service.dfy` (module `AuthService`): the handlers in their
  imperative form. The class `AuthServer` holds both collections and changes
  them step by step, as the handlers' `await`ed store calls do. Each method
  is proved to agree with its step function and to keep `Inv`.

Abstractions:

- Time is a parameter in integer milliseconds. For integer times,
  `(now - createdAt) / 1000 > 600` is the same test as
  `now - createdAt > 600000`.
- The OTP is the value `draw` returned by `crypto.randomInt(100000, 999999)`.
  It is a parameter limited to `100000 <= draw < 999999`.
- bcrypt is a `Hasher` of two functions, `hash(password, salt)` and
  `compare`. The salt stands for bcrypt's randomness. The only assumption is
  `SoundHasher`: comparing a password with any hash of it succeeds.
- `jwt.sign` is represented by the claims it signs: the user id and the
  seven-day lifetime.
- Mail sending is a boolean saying whether it succeeded.
- MongoDB's fresh user `_id`s come from a counter `nextId`.
- A pending record's `_id` is its position in the collection.
- `NODE_ENV` is an `Option<string>`; None means unset.
- A missing request field is the empty string. JavaScript treats both as
  falsy.

Facts about the code that the model makes explicit:

- `crypto.randomInt`'s upper bound is exclusive, so the code "999999" is
  never produced (`Utils.GenerateOtpRange`).
- The session cookie is named `jwt`. `generateToken` sets it with `sameSite`
  "none" in production and "lax" otherwise. `logout` clears it with
  `sameSite` "strict". The cookie is set with `secure` on every environment
  except development, but `logout` clears it with `secure` only in
  production (`Utils.ClearSecureMatchesSet`).
- The TTL index may drop a record after 300 s, and the mail text says the
  code expires in five minutes. The handler's own expiry test is 600 s, so
  its "OTP expired" branch is reached only when the TTL monitor lags behind
  (`AuthInvariants.TtlPassDropsCode`).
- Two guards of `verifyotp` never fire in a sequential run
  (`AuthInvariants.VerifyGuardsUnreachable`). The "OTP already verified"
  guard cannot fire because a record is deleted right after it is marked
  verified. The "User already exists" guard cannot fire because no email
  ever has both a pending record and a user.

## Model

| member | source | states |
|---|---|---|
| `OtpModel.NewOtp` | src/models/otp.model.js:3-10 | A record is created exactly when email, otp, fullName and password are all non-empty. Its fields are the given ones. `verified` is false and `createdAt` is the creation time unless they are given explicitly |
| `OtpModel.TtlSweep` | src/models/otp.model.js:9 | A TTL pass keeps a record exactly when it is younger than 300 s. It never removes a younger record |
| `OtpModel.WithoutEmail` | src/controllers/auth.controller.js:28 | Deleting by email removes exactly the records of that email and keeps every other record. No record of the email is left |
| `OtpModel.FindOtp` | src/controllers/auth.controller.js:59 | Finds the first record whose email and code both equal the string inputs. None means that no record matches both |
| `OtpModel.RemoveAt` | src/controllers/auth.controller.js:68 | Deleting one document removes exactly that position and keeps the order of the rest |
| `Utils.DecimalString` | src/lib/utils.js:19 | `toString()` of a non-negative integer is a canonical numeral (digits only, no leading zero) that denotes the integer |
| `Utils.DecimalRoundTrip` | src/lib/utils.js:19 | Rendering the value of a canonical numeral gives the numeral back, so the rendering is onto canonical numerals |
| `Utils.GenerateOtp` | src/lib/utils.js:18-20 | For every possible draw, the code is exactly 6 characters, all decimal digits, the first non-zero, and it denotes the draw |
| `Utils.GenerateOtpInjective` | src/lib/utils.js:19 | Different draws give different codes |
| `Utils.GenerateOtpRange` | src/lib/utils.js:19 | The possible codes are exactly the six-digit numerals with a non-zero first digit, except "999999" (the upper bound is exclusive) |
| `Utils.JwtCookieOptions` | src/lib/utils.js:9-14 | `maxAge` is 604 800 000 ms, equal to the token's 7-day lifetime. `httpOnly` is set. `sameSite` is "none" exactly in production and "lax" otherwise. `secure` is false exactly in development. A "none" cookie is always secure |
| `Utils.ClearJwtCookieOptions` | src/controllers/auth.controller.js:144-148 | Logout clears with `httpOnly`, `sameSite` "strict", and `secure` exactly in production |
| `Utils.ClearSecureMatchesSet` | src/controllers/auth.controller.js:146 | The clearing `secure` flag agrees with the setting one only when NODE_ENV is "production" or "development" |
| `Utils.GenerateToken` | src/lib/utils.js:5-16 | Returns a token for the user with the 7-day lifetime. It appends exactly one cookie named "jwt" whose value is that same token, with JwtCookieOptions |
| `AuthController.FindUser` | src/controllers/auth.controller.js:22 | Finds a user with the email exactly when one is registered |
| `AuthController.SignupStep` | src/controllers/auth.controller.js:8-48 | The code's checks, in its order: a missing field gives 400 "All fields are required", then a password under 6 characters gives 400 "Password must be at least 6 characters", then a registered email gives 400 "Email already registered". These are the only 400s, and a 400 changes nothing. Signup never touches the user store. It returns 200 "OTP sent successfully" exactly when validation passes, the mail is sent and the record validates. Otherwise it returns 500 "Failed to send OTP" |
| `AuthController.VerifyOtpStep` | src/controllers/auth.controller.js:51-105 | Returns 201 "User registered successfully" exactly when a profile is returned, and 400 otherwise. Changes the stores only when a record matches both email and code. A 400 never adds a user |
| `AuthController.LoginReply` | src/controllers/auth.controller.js:108-139 | A missing field gives 400 "All fields are required". An unregistered email gives 400 "Invalid email or password". For the registered user, a matching hash gives 200 "Login successful" with that user's id, name, email and a token for its id; otherwise it gives the same 400. Returns 200 only for a stored user with that email whose hash matches |
| `AuthController.ExpireStep` | src/models/otp.model.js:9 | A TTL pass applies TtlSweep to the pending records and leaves users and ids alone |
| `AuthInvariants.SignupLeavesOneRecord` | src/controllers/auth.controller.js:27-43 | After signup passes validation, even if the mail then fails, the email has exactly one record. It holds the generated code, the hash of the password, `verified` false and `createdAt` now. Records of other emails are unchanged |
| `AuthInvariants.SignupRejectedHashDeletesOnly` | src/controllers/auth.controller.js:28-40 | If the record fails validation at save, the reply is 500 and no record for the email is left, because the earlier ones were already deleted. Records of other emails and the users are unchanged |
| `AuthInvariants.SignupPreservesInv` | src/controllers/auth.controller.js:22-43 | Signup keeps the invariant: one record and one user per email at most, never both, no verified record, increasing user ids |
| `AuthInvariants.WrongCodeChangesNothing` | src/controllers/auth.controller.js:55-63 | With a missing field, verify returns 400 "Email and OTP are required". With both present but no exact email-and-code match, it returns 400 "Invalid or expired OTP". Either way the stores are unchanged |
| `AuthInvariants.VerifySucceedsExactly` | src/controllers/auth.controller.js:59-100 | For a matched record: verify returns 201 exactly when the record is at most 600 s old, not marked verified, and no user holds the email. It answers "OTP expired" exactly when the record is older than 600 s |
| `AuthInvariants.VerifyPromotes` | src/controllers/auth.controller.js:82-100 | A 201 appends exactly one user, with a fresh id and the matched record's name, email and password hash, leaving earlier users as they were. It removes that record and returns the new user's id, name, email and a token for its id |
| `AuthInvariants.VerifyRefusals` | src/controllers/auth.controller.js:65-80 | After a match, the handler's checks in its order: a record older than 600 s is deleted with 400 "OTP expired". Otherwise a record marked verified gives 400 "OTP already verified" and changes nothing. Otherwise a user holding the email has the record deleted with 400 "User already exists". No refusal touches the users |
| `AuthInvariants.ExpiryIsStrict` | src/controllers/auth.controller.js:65-70 | Older than 600 000 ms is "OTP expired". Exactly 600 000 ms is not |
| `AuthInvariants.VerifyGuardsUnreachable` | src/controllers/auth.controller.js:72-80 | In every state that satisfies the invariant, the "OTP already verified" and "User already exists" replies never occur |
| `AuthInvariants.VerifyConsumesRecord` | src/controllers/auth.controller.js:65-90 | Once verify has matched a record, no pending record for that email remains, whatever the outcome |
| `AuthInvariants.VerifyPreservesInv` | src/controllers/auth.controller.js:59-90 | Verify keeps the invariant |
| `AuthInvariants.LoginFailureIsGeneric` | src/controllers/auth.controller.js:116-124 | An unknown email and a wrong password get the identical reply: 400, "Invalid email or password", no profile |
| `AuthInvariants.ExpirePreservesInv` | src/models/otp.model.js:9 | A TTL pass keeps the invariant |
| `AuthInvariants.StepPreservesInv` | src/controllers/auth.controller.js:8-154 | Every request and every TTL pass keeps the invariant |
| `AuthInvariants.RunPreservesInv` | src/controllers/auth.controller.js:8-154 | Any sequential run of requests keeps the invariant |
| `AuthInvariants.ReachableAtMostOne` | src/controllers/auth.controller.js:22-43 | From empty stores, any sequential run leaves at most one pending record and at most one user per email |
| `AuthInvariants.SignupRecordIsFound` | src/controllers/auth.controller.js:33-59 | Right after signup, the email and the generated code find exactly the record signup saved |
| `AuthInvariants.SignupVerifyLogin` | src/controllers/auth.controller.js:8-139 | Signup, then verify within 600 s with no TTL pass in between, returns 201 and creates the user with the signup's name, email and password hash. A later login with the same password succeeds for that user |
| `AuthInvariants.ResignupInvalidatesEarlierCode` | src/controllers/auth.controller.js:27-63 | When a second signup for the same email draws a different code, the first code gets "Invalid or expired OTP" and changes nothing |
| `AuthInvariants.TtlPassDropsCode` | src/models/otp.model.js:9 | If the TTL monitor runs at least 300 s after signup and before verify, the signup's code gets "Invalid or expired OTP" and changes nothing |
| `AuthInvariants.LateVerifyExpires` | src/controllers/auth.controller.js:65-70 | Verify more than 600 s after signup returns "OTP expired", creates no user and leaves no record. Verifying again with the same code fails as not found |
| `AuthService.AuthServer.Signup` | src/controllers/auth.controller.js:8-48 | The step-by-step handler (deleteMany, save, mail) ends in the stores and reply of SignupStep and keeps the invariant |
| `AuthService.AuthServer.VerifyOtp` | src/controllers/auth.controller.js:51-105 | The step-by-step handler (findOne, deleteOne, User.create, mark verified and save, deleteOne) ends in the stores and reply of VerifyOtpStep. It sets the `jwt` cookie to the returned token exactly on 201. It keeps the invariant, and from a state satisfying it never answers "OTP already verified" or "User already exists" |
| `AuthService.AuthServer.Login` | src/controllers/auth.controller.js:108-139 | Returns LoginReply. Its frame is only the response, so neither store changes. It sets the `jwt` cookie to the returned token exactly on 200 |
| `AuthService.AuthServer.Logout` | src/controllers/auth.controller.js:142-154 | Returns 200 "Logged out successfully". It appends one clear of the `jwt` cookie. Its frame is only the response, so neither store changes |
| `AuthService.AuthServer.Expire` | src/models/otp.model.js:9 | A TTL pass on the collection yields ExpireStep and keeps the invariant |

## Left out

- `updateProfile` and `checkAuth` (src/controllers/auth.controller.js:157-187): these are a Cloudinary upload with `findByIdAndUpdate`, and an echo of `req.user`. They are outside the signup and login flow.
- `sendOtpEmail` (src/lib/utils.js:22-92): nodemailer transport and HTML template. It is modelled only as the boolean `mailSent`.
- The signature and secret of `jwt.sign`, and the `iat` claim. A token is its user id and lifetime.
- bcrypt's algorithm and cost factor. Nothing is assumed beyond `SoundHasher`.
- The randomness and distribution of `crypto.randomInt`. Only the range of the draw is modelled.
- `AuthInvariants.SignupLeavesOneRecord`: it states that the stored password is `hash(password, salt)`, not that it differs from the plaintext, because the hash function is abstract.
- Concurrent interleavings of handlers, and of the TTL monitor, across the handlers' `await`s. All properties are about sequential runs, and a TTL pass is applied only between whole requests. If a pass removes the record between verifyotp's `findOne` (src/controllers/auth.controller.js:59) and `otpDoc.save()` (:89), `User.create` (:82) has already added the user. The save of the removed document then fails, and the catch block answers 500 "Internal Server Error" with no cookie set. The model does not capture that outcome. With concurrent verify calls, the at-most-one-user property would depend on a unique index on `User.email`, and src/models/user.model.js is not part of this model.
- The validation of the `User` schema. src/models/user.model.js is not part of this model, so `User.create` always succeeds here.
- The 500 catch-all paths for database, hashing and other runtime exceptions. The model keeps only mail failure and the `Otp` schema's required-field validation.
- `OtpModel.FindOtp`: request fields are modelled as strings, so `findOne({ email, otp })` is an exact match on both. The server parses JSON bodies (src/index.js:19), so `otp` may arrive as an object such as `{"$ne": ""}`. That object passes the presence check at src/controllers/auth.controller.js:55, and Mongoose applies it as a query operator at :59. Such a request can then match the pending record of an email without knowing its code, and verify would return 201 and create that account. The model does not capture this. `AuthInvariants.WrongCodeChangesNothing` and `AuthInvariants.ResignupInvalidatesEarlierCode` hold only for string fields. The same casting applies to the other handlers' fields.
- `AuthController.SignupStep`: the password length check counts Unicode scalar values, not the UTF-16 code units JavaScript's `.length` counts. A password of three characters outside the Basic Multilingual Plane has `.length` 6 and is accepted by the code, but the model rejects it as too short.
- Floating-point seconds in the expiry test (exactly equivalent for integer milliseconds).
- src/index.js and src/lib/db.js: server and database bootstrap.
- The TTL monitor's schedule. A pass is an explicit step the environment may take at any time, or never. That is how the model captures "removal is permitted, not guaranteed".
