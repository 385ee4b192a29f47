/** The handlers of src/controllers/auth.controller.js in their own
    imperative form: an object holding the two collections, whose methods
    change them step by step as the handlers' `await`ed store calls do, and
    write the session cookie to the response. Each method is proved to agree
    with its step function in module AuthController and to keep Inv. */
module AuthService {
  import opened Wrappers
  import opened OtpModel
  import opened Utils
  import opened AuthController
  import opened AuthInvariants

  class AuthServer {
    /** The `Otp` collection. */
    var pending: seq<OtpRecord>
    /** The `User` collection. */
    var users: seq<User>
    /** MongoDB's generator of fresh user `_id`s. */
    var nextId: nat
    /** bcryptjs. */
    const hasher: Hasher
    /** `process.env.NODE_ENV`, None when unset. */
    const nodeEnv: Option<string>

    function State(): Store
      reads this
    {
      Store(pending, users, nextId)
    }

    ghost predicate Valid()
      reads this
    {
      Inv(State())
    }

    constructor (hasher: Hasher, nodeEnv: Option<string>)
      ensures State() == Empty && Valid()
      ensures this.hasher == hasher && this.nodeEnv == nodeEnv
    {
      pending, users, nextId := [], [], 0;
      this.hasher, this.nodeEnv := hasher, nodeEnv;
    }

    /** `signup`; `draw` is what `crypto.randomInt` returned, `salt` stands for
        bcrypt's random salt and `mailSent` for the outcome of `sendOtpEmail`. */
    method Signup(fullName: string, email: string, password: string,
                  now: int, draw: int, salt: nat, mailSent: bool) returns (reply: Reply)
      requires IsOtpDraw(draw)
      modifies this
      ensures (State(), reply) == SignupStep(old(State()), hasher, fullName, email, password, now, draw, salt, mailSent)
      ensures old(Valid()) ==> Valid()
    {
      if Valid() { SignupPreservesInv(State(), hasher, fullName, email, password, now, draw, salt, mailSent); }
      if fullName == "" || email == "" || password == "" {
        return Plain(400, MsgAllFields);
      }
      if |password| < MinPasswordLength {
        return Plain(400, MsgShortPassword);
      }
      var userExists := FindUser(users, email);
      if userExists.Some? {
        return Plain(400, MsgEmailRegistered);
      }
      pending := WithoutEmail(pending, email);                  // Otp.deleteMany({ email })
      var otp := GenerateOtp(draw);
      var hashedPassword := hasher.hash(password, salt);
      var otpDoc := NewOtp(email, otp, fullName, hashedPassword, None, None, now);
      if otpDoc.Err? {                                          // otpDoc.save() rejected
        return Plain(500, MsgSendFailed);
      }
      pending := pending + [otpDoc.value];                      // otpDoc.save()
      if !mailSent {                                            // sendOtpEmail threw
        return Plain(500, MsgSendFailed);
      }
      reply := Plain(200, MsgOtpSent);
    }

    /** `verifyotp`; `now` is the time of the request. */
    method VerifyOtp(email: string, otp: string, now: int, res: HttpResponse) returns (reply: Reply)
      modifies this, res
      ensures (State(), reply) == VerifyOtpStep(old(State()), email, otp, now)
      ensures res.cookies ==
        if reply.status == 201
        then old(res.cookies) + [SetCookie(JwtCookieName, reply.profile.value.token, JwtCookieOptions(nodeEnv))]
        else old(res.cookies)
      ensures old(Valid()) ==> Valid()
      ensures old(Valid()) ==> reply.message != MsgAlreadyVerified && reply.message != MsgUserExists
    {
      if Valid() {
        VerifyPreservesInv(State(), email, otp, now);
        VerifyGuardsUnreachable(State(), email, otp, now);
      }
      if email == "" || otp == "" {
        return Plain(400, MsgOtpRequired);
      }
      var found := FindOtp(pending, email, otp);                // Otp.findOne({ email, otp })
      if found.None? {
        return Plain(400, MsgInvalidOtp);
      }
      var i := found.value;
      var otpDoc := pending[i];
      if now - otpDoc.createdAt > OtpValidityMs {
        pending := RemoveAt(pending, i);                        // Otp.deleteOne({ _id })
        return Plain(400, MsgOtpExpired);
      }
      if otpDoc.verified {
        return Plain(400, MsgAlreadyVerified);
      }
      var existingUser := FindUser(users, email);
      if existingUser.Some? {
        pending := RemoveAt(pending, i);                        // Otp.deleteOne({ _id })
        return Plain(400, MsgUserExists);
      }
      var newUser := User(nextId, otpDoc.fullName, otpDoc.email, otpDoc.password);
      users, nextId := users + [newUser], nextId + 1;           // User.create
      ghost var before := pending;
      otpDoc := otpDoc.(verified := true);
      pending := pending[i := otpDoc];                          // otpDoc.save()
      pending := RemoveAt(pending, i);                          // Otp.deleteOne({ _id })
      assert pending == RemoveAt(before, i);
      var token := GenerateToken(newUser.id, nodeEnv, res);
      reply := Reply(201, MsgRegistered, Some(Profile(newUser.id, newUser.fullName, newUser.email, token)));
    }

    /** `login`; reads the collections and writes only the cookie. */
    method Login(email: string, password: string, res: HttpResponse) returns (reply: Reply)
      modifies res
      ensures reply == LoginReply(State(), hasher, email, password)
      ensures res.cookies ==
        if reply.status == 200
        then old(res.cookies) + [SetCookie(JwtCookieName, reply.profile.value.token, JwtCookieOptions(nodeEnv))]
        else old(res.cookies)
    {
      if email == "" || password == "" {
        return Plain(400, MsgAllFields);
      }
      var user := FindUser(users, email);
      if user.None? {
        return Plain(400, MsgBadCredentials);
      }
      var isMatch := hasher.compare(password, user.value.password);
      if !isMatch {
        return Plain(400, MsgBadCredentials);
      }
      var token := GenerateToken(user.value.id, nodeEnv, res);
      reply := Reply(200, MsgLoginOk, Some(Profile(user.value.id, user.value.fullName, user.value.email, token)));
    }

    /** `logout`: clears the `jwt` cookie; the collections are not touched. */
    method Logout(res: HttpResponse) returns (reply: Reply)
      modifies res
      ensures reply == Plain(200, MsgLoggedOut)
      ensures res.cookies == old(res.cookies) + [CookieHeader.ClearCookie(JwtCookieName, ClearJwtCookieOptions(nodeEnv))]
    {
      res.ClearCookie(JwtCookieName, ClearJwtCookieOptions(nodeEnv));
      reply := Plain(200, MsgLoggedOut);
    }

    /** A pass of the TTL monitor on the `Otp` collection at time `now`. */
    method Expire(now: int)
      modifies this
      ensures State() == ExpireStep(old(State()), now)
      ensures old(Valid()) ==> Valid()
    {
      if Valid() { ExpirePreservesInv(State(), now); }
      pending := TtlSweep(pending, now);
    }
  }
}
