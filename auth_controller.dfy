/** The handlers of src/controllers/auth.controller.js as pure step functions
    over the two stores they use: the `Otp` collection of pending
    registrations and the `User` collection. Each step function takes the
    stores before a request and yields the stores after it together with the
    HTTP status and JSON body the handler sends. The imperative handlers in
    module AuthService are proved to agree with them.

    Absent request fields are modelled as empty strings, which JavaScript
    treats as falsy like `undefined`. Times are integer milliseconds, so the
    handler's `(now - createdAt) / 1000 > 600` becomes `now - createdAt > 600000`. */
module AuthController {
  import opened Wrappers
  import opened OtpModel
  import opened Utils

  /** A confirmed identity; `password` is the bcrypt hash copied from the
      pending registration. */
  datatype User = User(id: nat, fullName: string, email: string, password: string)

  /** The two collections. `nextId` stands for MongoDB's generator of fresh
      `_id` values for users. */
  datatype Store = Store(pending: seq<OtpRecord>, users: seq<User>, nextId: nat)

  /** The public profile fields and token a successful verify or login returns. */
  datatype Profile = Profile(id: nat, fullName: string, email: string, token: Token)

  /** The status code and JSON body of a response. */
  datatype Reply = Reply(status: int, message: string, profile: Option<Profile>)

  /** bcryptjs: `hash(password, salt)` is a salted hash (the salt stands for the
      randomness of `bcrypt.hash(password, 10)`), `compare(password, hash)` its
      check. Nothing about them is assumed except SoundHasher. */
  datatype Hasher = Hasher(hash: (string, nat) -> string, compare: (string, string) -> bool)

  /** Comparing a password with any hash of that password succeeds. */
  ghost predicate SoundHasher(h: Hasher) {
    forall password: string, salt: nat :: h.compare(password, h.hash(password, salt))
  }

  const MsgAllFields := "All fields are required"
  const MsgShortPassword := "Password must be at least 6 characters"
  const MsgEmailRegistered := "Email already registered"
  const MsgOtpSent := "OTP sent successfully"
  const MsgSendFailed := "Failed to send OTP"
  const MsgOtpRequired := "Email and OTP are required"
  const MsgInvalidOtp := "Invalid or expired OTP"
  const MsgOtpExpired := "OTP expired"
  const MsgAlreadyVerified := "OTP already verified"
  const MsgUserExists := "User already exists"
  const MsgRegistered := "User registered successfully"
  const MsgBadCredentials := "Invalid email or password"
  const MsgLoginOk := "Login successful"
  const MsgLoggedOut := "Logged out successfully"

  /** The smallest password length signup accepts. */
  const MinPasswordLength: nat := 6

  /** The in-flow validity window of a code, 600 seconds. */
  const OtpValidityMs: nat := 600 * 1000

  /** A reply that carries only a status and a message, without a profile. */
  function Plain(status: int, message: string): Reply {
    Reply(status, message, None)
  }

  /** Some user has this email. */
  predicate Registered(users: seq<User>, email: string) {
    exists u :: u in users && u.email == email
  }

  /** `User.findOne({ email })`: the first user with this email. */
  function FindUser(users: seq<User>, email: string): (r: Option<User>)
    ensures r.Some? <==> Registered(users, email)
    ensures r.Some? ==> r.value in users && r.value.email == email
  {
    if users == [] then None
    else if users[0].email == email then Some(users[0])
    else FindUser(users[1..], email)
  }

  /** `signup`: validates the request, refuses an email that already belongs
      to a user, deletes every pending record for the email, saves a fresh one
      holding the code `GenerateOtp(draw)` and the hash of the password, and
      mails the code (`mailSent` says whether sending succeeded). */
  function SignupStep(s: Store, h: Hasher, fullName: string, email: string, password: string,
                      now: int, draw: int, salt: nat, mailSent: bool): (r: (Store, Reply))
    requires IsOtpDraw(draw)
    ensures r.0.users == s.users && r.0.nextId == s.nextId
    ensures r.1.status == 400 <==>
      fullName == "" || email == "" || password == "" || |password| < MinPasswordLength ||
      Registered(s.users, email)
    ensures r.1.status == 400 ==> r.0 == s
    ensures r.1.status == 200 || r.1.status == 400 || r.1.status == 500
    ensures r.1.status == 200 <==> r.1.status != 400 && mailSent && h.hash(password, salt) != ""
    ensures r.1.profile.None?
    // the messages, in the order the handler checks
    ensures fullName == "" || email == "" || password == "" ==> r.1 == Plain(400, MsgAllFields)
    ensures fullName != "" && email != "" && password != "" && |password| < MinPasswordLength ==>
      r.1 == Plain(400, MsgShortPassword)
    ensures fullName != "" && email != "" && |password| >= MinPasswordLength && Registered(s.users, email) ==>
      r.1 == Plain(400, MsgEmailRegistered)
    ensures r.1.status == 200 ==> r.1.message == MsgOtpSent
    ensures r.1.status == 500 ==> r.1.message == MsgSendFailed
  {
    if fullName == "" || email == "" || password == "" then
      (s, Plain(400, MsgAllFields))
    else if |password| < MinPasswordLength then
      (s, Plain(400, MsgShortPassword))
    else if FindUser(s.users, email).Some? then
      (s, Plain(400, MsgEmailRegistered))
    else
      var cleared := s.(pending := WithoutEmail(s.pending, email));
      match NewOtp(email, GenerateOtp(draw), fullName, h.hash(password, salt), None, None, now)
      case Err(_) => (cleared, Plain(500, MsgSendFailed))
      case Ok(doc) =>
        var saved := cleared.(pending := cleared.pending + [doc]);
        if !mailSent then (saved, Plain(500, MsgSendFailed))
        else (saved, Plain(200, MsgOtpSent))
  }

  /** `verifyotp`: finds the pending record whose email and code equal the
      inputs; deletes it and refuses when it is more than 600 seconds old;
      refuses a record already marked verified; deletes it and refuses when a
      user with the email exists; otherwise creates the user from the record's
      stored fields, deletes the record, and returns the new user's profile
      with a fresh session token. */
  function VerifyOtpStep(s: Store, email: string, otp: string, now: int): (r: (Store, Reply))
    ensures r.1.status == 201 || r.1.status == 400
    ensures r.1.status == 201 <==> r.1.profile.Some?
    ensures r.0 != s ==> FindOtp(s.pending, email, otp).Some?
    ensures r.1.status == 400 ==> r.0.users == s.users && r.0.nextId == s.nextId
    ensures r.1.status == 201 ==> r.1.message == MsgRegistered
  {
    if email == "" || otp == "" then
      (s, Plain(400, MsgOtpRequired))
    else
      match FindOtp(s.pending, email, otp)
      case None => (s, Plain(400, MsgInvalidOtp))
      case Some(i) =>
        var doc := s.pending[i];
        if now - doc.createdAt > OtpValidityMs then
          (s.(pending := RemoveAt(s.pending, i)), Plain(400, MsgOtpExpired))
        else if doc.verified then
          (s, Plain(400, MsgAlreadyVerified))
        else if FindUser(s.users, email).Some? then
          (s.(pending := RemoveAt(s.pending, i)), Plain(400, MsgUserExists))
        else
          var user := User(s.nextId, doc.fullName, doc.email, doc.password);
          (Store(RemoveAt(s.pending, i), s.users + [user], s.nextId + 1),
           Reply(201, MsgRegistered, Some(Profile(user.id, user.fullName, user.email, SignToken(user.id)))))
  }

  /** `login`: looks the user up by email and checks the password against the
      stored hash; an unknown email and a wrong password give the same reply. */
  function LoginReply(s: Store, h: Hasher, email: string, password: string): (r: Reply)
    ensures r.status == 200 || r.status == 400
    ensures r.status == 200 <==> r.profile.Some?
    ensures r.status == 200 ==>
      exists u :: u in s.users && u.email == email && h.compare(password, u.password) &&
                  r.profile.value == Profile(u.id, u.fullName, u.email, SignToken(u.id))
    ensures email == "" || password == "" ==> r == Plain(400, MsgAllFields)
    ensures email != "" && password != "" && !Registered(s.users, email) ==> r == Plain(400, MsgBadCredentials)
    ensures email != "" && password != "" && FindUser(s.users, email).Some? ==>
      var u := FindUser(s.users, email).value;
      r == if h.compare(password, u.password)
           then Reply(200, MsgLoginOk, Some(Profile(u.id, u.fullName, u.email, SignToken(u.id))))
           else Plain(400, MsgBadCredentials)
  {
    if email == "" || password == "" then
      Plain(400, MsgAllFields)
    else
      match FindUser(s.users, email)
      case None => Plain(400, MsgBadCredentials)
      case Some(u) =>
        if !h.compare(password, u.password) then Plain(400, MsgBadCredentials)
        else Reply(200, MsgLoginOk, Some(Profile(u.id, u.fullName, u.email, SignToken(u.id))))
  }

  /** One pass of the `Otp` collection's TTL monitor at time `now`. */
  function ExpireStep(s: Store, now: int): (r: Store)
    ensures r.users == s.users && r.nextId == s.nextId
    ensures r.pending == TtlSweep(s.pending, now)
  {
    s.(pending := TtlSweep(s.pending, now))
  }

  /** What holds of the stores in every state a sequence of requests can
      reach from empty stores: at most one pending record and at most one user
      per email, never both a pending record and a user for the same email,
      no pending record marked verified, and user ids increasing and below
      `nextId`. */
  predicate Inv(s: Store) {
    UniqueEmails(s.pending) &&
    (forall i, j :: 0 <= i < j < |s.users| ==> s.users[i].email != s.users[j].email) &&
    (forall i, j :: 0 <= i < |s.pending| && 0 <= j < |s.users| ==> s.pending[i].email != s.users[j].email) &&
    (forall i :: 0 <= i < |s.pending| ==> !s.pending[i].verified) &&
    (forall i, j :: 0 <= i < j < |s.users| ==> s.users[i].id < s.users[j].id) &&
    (forall i :: 0 <= i < |s.users| ==> s.users[i].id < s.nextId)
  }

  /** The stores of a fresh deployment. */
  const Empty: Store := Store([], [], 0)
}
