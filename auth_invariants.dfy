/** What the handlers of src/controllers/auth.controller.js promise, stated
    about the step functions of module AuthController: the effect of each
    request on the stores, the invariant every sequential run keeps, and the
    flows a client goes through (signup, then verify, then login). */
module AuthInvariants {
  import opened Wrappers
  import opened OtpModel
  import opened Utils
  import opened AuthController

  // ----------------------------------------------------------------- signup

  /** A signup that passes validation replaces whatever was pending for the
      email by exactly one record: the generated code, the hash of the
      password (not the password), `verified` false and `createdAt` the time
      of the request. Records for other emails stay as they were. This holds
      when mail sending then fails (500) too: the record stays for a retry. */
  lemma SignupLeavesOneRecord(s: Store, h: Hasher, fullName: string, email: string, password: string,
                              now: int, draw: int, salt: nat, mailSent: bool)
    requires IsOtpDraw(draw)
    requires SignupStep(s, h, fullName, email, password, now, draw, salt, mailSent).1.status != 400
    requires h.hash(password, salt) != ""
    ensures var s' := SignupStep(s, h, fullName, email, password, now, draw, salt, mailSent).0;
      ForEmail(s'.pending, email) ==
        [OtpRecord(email, GenerateOtp(draw), fullName, h.hash(password, salt), false, now)] &&
      WithoutEmail(s'.pending, email) == WithoutEmail(s.pending, email)
  {
    var doc := OtpRecord(email, GenerateOtp(draw), fullName, h.hash(password, salt), false, now);
    var cleared := WithoutEmail(s.pending, email);
    KeepConcat(cleared, [doc], (rec: OtpRecord) => rec.email == email);
    KeepNone(cleared, (rec: OtpRecord) => rec.email == email);
    KeepConcat(cleared, [doc], (rec: OtpRecord) => rec.email != email);
    KeepTwice(s.pending, email);
  }

  /** Deleting the records of an email twice is deleting them once. */
  lemma {:induction false} KeepTwice(p: seq<OtpRecord>, email: string)
    ensures WithoutEmail(WithoutEmail(p, email), email) == WithoutEmail(p, email)
  {
    if p != [] {
      KeepTwice(p[1..], email);
      var head := if p[0].email != email then [p[0]] else [];
      KeepConcat(head, WithoutEmail(p[1..], email), (rec: OtpRecord) => rec.email != email);
    }
  }

  /** When the hash is empty the new record fails Mongoose validation at
      save: the reply is 500, no record for the email is left (the earlier
      ones were already deleted), records of other emails and the users are
      unchanged. */
  lemma SignupRejectedHashDeletesOnly(s: Store, h: Hasher, fullName: string, email: string, password: string,
                                      now: int, draw: int, salt: nat, mailSent: bool)
    requires IsOtpDraw(draw)
    requires SignupStep(s, h, fullName, email, password, now, draw, salt, mailSent).1.status != 400
    requires h.hash(password, salt) == ""
    ensures var (s', reply) := SignupStep(s, h, fullName, email, password, now, draw, salt, mailSent);
      reply.status == 500 && s'.users == s.users &&
      ForEmail(s'.pending, email) == [] &&
      WithoutEmail(s'.pending, email) == WithoutEmail(s.pending, email)
  {
    var cleared := WithoutEmail(s.pending, email);
    forall j | 0 <= j < |cleared| ensures cleared[j].email != email {
      assert cleared[j] in cleared;
    }
    KeepNone(cleared, (rec: OtpRecord) => rec.email == email);
    KeepTwice(s.pending, email);
  }

  /** Every record of `WithoutEmail(p, email)` is a record of `p`. */
  lemma WithoutEmailSub(p: seq<OtpRecord>, email: string, i: nat)
    requires i < |WithoutEmail(p, email)|
    ensures exists k :: 0 <= k < |p| && p[k] == WithoutEmail(p, email)[i]
    ensures WithoutEmail(p, email)[i].email != email
  {
    assert WithoutEmail(p, email)[i] in WithoutEmail(p, email);
  }

  lemma SignupPreservesInv(s: Store, h: Hasher, fullName: string, email: string, password: string,
                           now: int, draw: int, salt: nat, mailSent: bool)
    requires IsOtpDraw(draw) && Inv(s)
    ensures Inv(SignupStep(s, h, fullName, email, password, now, draw, salt, mailSent).0)
  {
    var r := SignupStep(s, h, fullName, email, password, now, draw, salt, mailSent);
    if r.1.status != 400 {
      var cleared := WithoutEmail(s.pending, email);
      KeepUnique(s.pending, (rec: OtpRecord) => rec.email != email);
      var doc := OtpRecord(email, GenerateOtp(draw), fullName, h.hash(password, salt), false, now);
      var p := r.0.pending;
      assert p == cleared || p == cleared + [doc];
      assert !Registered(s.users, email);
      forall i | 0 <= i < |cleared|
        ensures cleared[i].email != email && !cleared[i].verified
        ensures forall j :: 0 <= j < |s.users| ==> cleared[i].email != s.users[j].email
      {
        WithoutEmailSub(s.pending, email, i);
      }
      forall j | 0 <= j < |s.users| ensures s.users[j].email != email {
        assert s.users[j] in s.users;
      }
    }
  }

  // -------------------------------------------------------------- verifyotp

  /** A verify request with a missing field, or one that no pending record
      matches exactly in both email and code, fails and changes nothing. */
  lemma WrongCodeChangesNothing(s: Store, email: string, otp: string, now: int)
    requires email == "" || otp == "" ||
      forall i :: 0 <= i < |s.pending| ==> s.pending[i].email != email || s.pending[i].otp != otp
    ensures VerifyOtpStep(s, email, otp, now).0 == s
    ensures VerifyOtpStep(s, email, otp, now).1.status == 400
    ensures email == "" || otp == "" ==> VerifyOtpStep(s, email, otp, now).1 == Plain(400, MsgOtpRequired)
    ensures email != "" && otp != "" ==> VerifyOtpStep(s, email, otp, now).1 == Plain(400, MsgInvalidOtp)
  {
  }

  /** For a request whose fields are present and whose email and code match
      the record `rec` at position `i`: it succeeds exactly when `rec` is at
      most 600 seconds old, not marked verified, and no user holds the email;
      it answers "OTP expired" exactly when `rec` is older. */
  lemma VerifySucceedsExactly(s: Store, email: string, otp: string, now: int, i: nat)
    requires email != "" && otp != ""
    requires FindOtp(s.pending, email, otp) == Some(i)
    ensures var rec := s.pending[i];
      var reply := VerifyOtpStep(s, email, otp, now).1;
      (reply.status == 201 <==>
        now - rec.createdAt <= OtpValidityMs && !rec.verified && !Registered(s.users, email)) &&
      (reply.message == MsgOtpExpired <==> now - rec.createdAt > OtpValidityMs)
  {
  }

  /** A successful verify appends exactly one user, whose name, email and
      password hash are the matched record's and whose id is fresh; it
      removes that record, and answers 201 with the new user's profile and a
      token for its id. */
  lemma VerifyPromotes(s: Store, email: string, otp: string, now: int)
    requires Inv(s)
    requires VerifyOtpStep(s, email, otp, now).1.status == 201
    ensures FindOtp(s.pending, email, otp).Some?
    ensures var i := FindOtp(s.pending, email, otp).value;
      var rec := s.pending[i];
      var (s', reply) := VerifyOtpStep(s, email, otp, now);
      var last := s'.users[|s'.users| - 1];
      |s'.users| == |s.users| + 1 && s'.users[..|s.users|] == s.users &&
      last.fullName == rec.fullName && last.email == rec.email && last.email == email &&
      last.password == rec.password &&
      (forall j :: 0 <= j < |s.users| ==> s.users[j].id != last.id) &&
      s'.pending == RemoveAt(s.pending, i) &&
      reply.profile == Some(Profile(last.id, last.fullName, last.email, SignToken(last.id)))
  {
    var i := FindOtp(s.pending, email, otp).value;
    var s' := VerifyOtpStep(s, email, otp, now).0;
    assert s'.users[..|s.users|] == s.users;
  }

  /** The refusals after a match, in the order the handler tests them: a
      record older than 600 seconds is deleted with "OTP expired"; otherwise a
      record marked verified changes nothing; otherwise a user holding the
      email has the record deleted with "User already exists". Each refusal
      leaves the users alone. */
  lemma VerifyRefusals(s: Store, email: string, otp: string, now: int, i: nat)
    requires email != "" && otp != ""
    requires FindOtp(s.pending, email, otp) == Some(i)
    ensures var (s', reply) := VerifyOtpStep(s, email, otp, now);
      (reply.message == MsgOtpExpired || reply.message == MsgUserExists ==>
        s' == s.(pending := RemoveAt(s.pending, i)) && reply.status == 400) &&
      (reply.message == MsgAlreadyVerified ==> s' == s && reply.status == 400)
    ensures var rec := s.pending[i];
      var removed := s.(pending := RemoveAt(s.pending, i));
      (now - rec.createdAt > OtpValidityMs ==>
        VerifyOtpStep(s, email, otp, now) == (removed, Plain(400, MsgOtpExpired))) &&
      (now - rec.createdAt <= OtpValidityMs && rec.verified ==>
        VerifyOtpStep(s, email, otp, now) == (s, Plain(400, MsgAlreadyVerified))) &&
      (now - rec.createdAt <= OtpValidityMs && !rec.verified && Registered(s.users, email) ==>
        VerifyOtpStep(s, email, otp, now) == (removed, Plain(400, MsgUserExists)))
  {
  }

  /** A record older than 600 seconds is never promoted, while one exactly
      600 seconds old still is (when no other guard refuses it). */
  lemma ExpiryIsStrict(s: Store, email: string, otp: string, now: int, i: nat)
    requires email != "" && otp != ""
    requires FindOtp(s.pending, email, otp) == Some(i)
    ensures now - s.pending[i].createdAt > 600000 ==>
      VerifyOtpStep(s, email, otp, now).1 == Plain(400, MsgOtpExpired)
    ensures now - s.pending[i].createdAt == 600000 ==>
      VerifyOtpStep(s, email, otp, now).1.message != MsgOtpExpired
  {
  }

  /** Under the invariant the record of an email is the only one for it, so
      removing it leaves no pending record for that email. */
  lemma RemoveOnlyRecord(p: seq<OtpRecord>, i: nat)
    requires UniqueEmails(p) && i < |p|
    ensures forall j :: 0 <= j < |p| - 1 ==> RemoveAt(p, i)[j].email != p[i].email
  {
  }

  /** In every reachable state the guards "OTP already verified" and "User
      already exists" of verifyotp never fire: a record is deleted right after
      it is marked verified, and no email has both a pending record and a user. */
  lemma VerifyGuardsUnreachable(s: Store, email: string, otp: string, now: int)
    requires Inv(s)
    ensures VerifyOtpStep(s, email, otp, now).1.message != MsgAlreadyVerified
    ensures VerifyOtpStep(s, email, otp, now).1.message != MsgUserExists
  {
    var m := FindOtp(s.pending, email, otp);
    if email != "" && otp != "" && m.Some? {
      forall u | u in s.users ensures u.email != email {
        var j :| 0 <= j < |s.users| && s.users[j] == u;
      }
    }
  }

  /** After a verify request that found its record, under the invariant, no
      pending record for the email remains, whatever the outcome. */
  lemma VerifyConsumesRecord(s: Store, email: string, otp: string, now: int)
    requires Inv(s) && email != "" && otp != ""
    requires FindOtp(s.pending, email, otp).Some?
    ensures ForEmail(VerifyOtpStep(s, email, otp, now).0.pending, email) == []
  {
    var i := FindOtp(s.pending, email, otp).value;
    VerifyGuardsUnreachable(s, email, otp, now);
    RemoveOnlyRecord(s.pending, i);
    KeepNone(RemoveAt(s.pending, i), (rec: OtpRecord) => rec.email == email);
  }

  /** Deleting one pending record keeps the invariant. */
  lemma RemoveKeepsInv(s: Store, i: nat)
    requires Inv(s) && i < |s.pending|
    ensures Inv(s.(pending := RemoveAt(s.pending, i)))
  {
    var p := RemoveAt(s.pending, i);
    forall a | 0 <= a < |p|
      ensures p[a] == s.pending[if a < i then a else a + 1]
    {
    }
  }

  /** Promoting the record at `i` to a user, when no user holds its email,
      keeps the invariant. */
  lemma PromoteKeepsInv(s: Store, i: nat)
    requires Inv(s) && i < |s.pending| && !Registered(s.users, s.pending[i].email)
    ensures var doc := s.pending[i];
      Inv(Store(RemoveAt(s.pending, i), s.users + [User(s.nextId, doc.fullName, doc.email, doc.password)], s.nextId + 1))
  {
    RemoveKeepsInv(s, i);
    RemoveOnlyRecord(s.pending, i);
    forall j | 0 <= j < |s.users| ensures s.users[j].email != s.pending[i].email {
      assert s.users[j] in s.users;
    }
  }

  lemma VerifyPreservesInv(s: Store, email: string, otp: string, now: int)
    requires Inv(s)
    ensures Inv(VerifyOtpStep(s, email, otp, now).0)
  {
    var m := FindOtp(s.pending, email, otp);
    if email != "" && otp != "" && m.Some? {
      RemoveKeepsInv(s, m.value);
      if !Registered(s.users, email) {
        PromoteKeepsInv(s, m.value);
      }
    }
  }

  // ------------------------------------------------------------------ login

  /** An unknown email and a wrong password for a known one get the same
      status and message, and neither gets a profile or a token. */
  lemma LoginFailureIsGeneric(s: Store, h: Hasher, email1: string, password1: string,
                              email2: string, password2: string)
    requires email1 != "" && password1 != "" && email2 != "" && password2 != ""
    requires !Registered(s.users, email1)
    requires FindUser(s.users, email2).Some? && !h.compare(password2, FindUser(s.users, email2).value.password)
    ensures LoginReply(s, h, email1, password1) == LoginReply(s, h, email2, password2)
    ensures LoginReply(s, h, email1, password1) == Plain(400, MsgBadCredentials)
  {
  }

  // ------------------------------------------------------- sequential runs

  /** A request to one of the handlers, or a pass of the TTL monitor. */
  datatype Request =
    | SignupRequest(fullName: string, email: string, password: string, now: int, draw: int, salt: nat, mailSent: bool)
    | VerifyOtpRequest(email: string, otp: string, now: int)
    | LoginRequest(email: string, password: string)
    | LogoutRequest
    | TtlPass(now: int)

  /** The draw of a signup request is one `crypto.randomInt` can return. */
  predicate WellFormed(req: Request) {
    req.SignupRequest? ==> IsOtpDraw(req.draw)
  }

  /** The stores after one request. Login and logout read the stores only. */
  function Step(s: Store, h: Hasher, req: Request): Store
    requires WellFormed(req)
  {
    match req
    case SignupRequest(fullName, email, password, now, draw, salt, mailSent) =>
      SignupStep(s, h, fullName, email, password, now, draw, salt, mailSent).0
    case VerifyOtpRequest(email, otp, now) => VerifyOtpStep(s, email, otp, now).0
    case LoginRequest(_, _) => s
    case LogoutRequest => s
    case TtlPass(now) => ExpireStep(s, now)
  }

  /** The stores after the requests `reqs`, handled one after another. */
  function Run(s: Store, h: Hasher, reqs: seq<Request>): Store
    requires forall k :: 0 <= k < |reqs| ==> WellFormed(reqs[k])
    decreases |reqs|
  {
    if reqs == [] then s else Run(Step(s, h, reqs[0]), h, reqs[1..])
  }

  lemma ExpirePreservesInv(s: Store, now: int)
    requires Inv(s)
    ensures Inv(ExpireStep(s, now))
  {
    KeepUnique(s.pending, (rec: OtpRecord) => !TtlElapsed(rec, now));
    var p := ExpireStep(s, now).pending;
    forall a | 0 <= a < |p|
      ensures !p[a].verified
      ensures forall j :: 0 <= j < |s.users| ==> p[a].email != s.users[j].email
    {
      assert p[a] in p;
      var k :| 0 <= k < |s.pending| && s.pending[k] == p[a];
    }
  }

  lemma StepPreservesInv(s: Store, h: Hasher, req: Request)
    requires Inv(s) && WellFormed(req)
    ensures Inv(Step(s, h, req))
  {
    match req
    case SignupRequest(fullName, email, password, now, draw, salt, mailSent) =>
      SignupPreservesInv(s, h, fullName, email, password, now, draw, salt, mailSent);
    case VerifyOtpRequest(email, otp, now) => VerifyPreservesInv(s, email, otp, now);
    case LoginRequest(_, _) =>
    case LogoutRequest =>
    case TtlPass(now) => ExpirePreservesInv(s, now);
  }

  /** Across any sequential run of requests from empty stores, every email has
      at most one pending record and at most one user, never both, and no
      pending record is marked verified. */
  lemma {:induction false} RunPreservesInv(s: Store, h: Hasher, reqs: seq<Request>)
    requires Inv(s)
    requires forall k :: 0 <= k < |reqs| ==> WellFormed(reqs[k])
    ensures Inv(Run(s, h, reqs))
    decreases |reqs|
  {
    if reqs != [] {
      StepPreservesInv(s, h, reqs[0]);
      RunPreservesInv(Step(s, h, reqs[0]), h, reqs[1..]);
    }
  }

  /** In a state reached from empty stores, each email has at most one
      pending record and at most one user. */
  lemma ReachableAtMostOne(h: Hasher, reqs: seq<Request>, email: string)
    requires forall k :: 0 <= k < |reqs| ==> WellFormed(reqs[k])
    ensures |ForEmail(Run(Empty, h, reqs).pending, email)| <= 1
    ensures forall i, j :: 0 <= i < j < |Run(Empty, h, reqs).users| ==>
      Run(Empty, h, reqs).users[i].email != Run(Empty, h, reqs).users[j].email
  {
    RunPreservesInv(Empty, h, reqs);
    UniqueForEmail(Run(Empty, h, reqs).pending, email);
  }

  // -------------------------------------------------------------- scenarios

  /** A record of `p` for `email` is the one record ForEmail lists. */
  lemma InForEmail(p: seq<OtpRecord>, email: string, doc: OtpRecord, k: nat)
    requires ForEmail(p, email) == [doc] && k < |p| && p[k].email == email
    ensures p[k] == doc
  {
    assert p[k] in ForEmail(p, email);
  }

  /** The same, for every record of the collection at once. */
  lemma OnlyForEmail(p: seq<OtpRecord>, email: string, doc: OtpRecord)
    requires ForEmail(p, email) == [doc]
    ensures forall r :: r in p && r.email == email ==> r == doc
  {
    forall r | r in p && r.email == email ensures r == doc {
      assert r in ForEmail(p, email);
    }
  }

  /** Right after a signup that saved its record, verifying with the code that
      signup generated finds exactly that record. */
  lemma SignupRecordIsFound(s: Store, h: Hasher, fullName: string, email: string, password: string,
                            now: int, draw: int, salt: nat, mailSent: bool)
    requires IsOtpDraw(draw)
    requires SignupStep(s, h, fullName, email, password, now, draw, salt, mailSent).1.status != 400
    requires h.hash(password, salt) != ""
    ensures var p := SignupStep(s, h, fullName, email, password, now, draw, salt, mailSent).0.pending;
      FindOtp(p, email, GenerateOtp(draw)).Some? &&
      p[FindOtp(p, email, GenerateOtp(draw)).value] ==
        OtpRecord(email, GenerateOtp(draw), fullName, h.hash(password, salt), false, now)
  {
    var p := SignupStep(s, h, fullName, email, password, now, draw, salt, mailSent).0.pending;
    var doc := OtpRecord(email, GenerateOtp(draw), fullName, h.hash(password, salt), false, now);
    SignupLeavesOneRecord(s, h, fullName, email, password, now, draw, salt, mailSent);
    assert doc in ForEmail(p, email);
    var k :| 0 <= k < |p| && p[k] == doc;
    var m := FindOtp(p, email, GenerateOtp(draw));
    InForEmail(p, email, doc, m.value);
  }

  /** Signup, then verify with the mailed code within 600 seconds (600 seconds
      exactly included), then login with the same password: the verify creates
      the user with the signup's name and email and returns 201, and the login
      succeeds for that same user. It holds even when the mail could not be
      sent, since the record stays. */
  lemma SignupVerifyLogin(s: Store, h: Hasher, fullName: string, email: string, password: string,
                          now: int, draw: int, salt: nat, mailSent: bool, later: int)
    requires Inv(s) && IsOtpDraw(draw) && SoundHasher(h)
    requires SignupStep(s, h, fullName, email, password, now, draw, salt, mailSent).1.status != 400
    requires h.hash(password, salt) != ""
    requires later - now <= 600000
    ensures var s1 := SignupStep(s, h, fullName, email, password, now, draw, salt, mailSent).0;
      var (s2, reply) := VerifyOtpStep(s1, email, GenerateOtp(draw), later);
      reply.status == 201 && reply.profile.Some? &&
      reply.profile.value.email == email && reply.profile.value.fullName == fullName &&
      s2.users == s.users + [User(s.nextId, fullName, email, h.hash(password, salt))] &&
      LoginReply(s2, h, email, password).status == 200 &&
      LoginReply(s2, h, email, password).profile.value.id == reply.profile.value.id
  {
    var s1 := SignupStep(s, h, fullName, email, password, now, draw, salt, mailSent).0;
    var otp := GenerateOtp(draw);
    SignupPreservesInv(s, h, fullName, email, password, now, draw, salt, mailSent);
    SignupRecordIsFound(s, h, fullName, email, password, now, draw, salt, mailSent);
    var i := FindOtp(s1.pending, email, otp).value;
    assert otp != "";
    VerifySucceedsExactly(s1, email, otp, later, i);
    var s2 := VerifyOtpStep(s1, email, otp, later).0;
    VerifyPreservesInv(s1, email, otp, later);
    var user := User(s.nextId, fullName, email, h.hash(password, salt));
    assert s2.users == s.users + [user];
    var u := FindUser(s2.users, email).value;
    var j :| 0 <= j < |s2.users| && s2.users[j] == u;
    assert s2.users[|s2.users| - 1] == user;
    assert j == |s2.users| - 1;
  }

  /** A second signup for the same email makes the first code useless: a
      verify with it finds nothing and changes nothing. */
  lemma ResignupInvalidatesEarlierCode(s: Store, h: Hasher, fullName: string, email: string, password: string,
                                       now1: int, draw1: int, salt1: nat, mail1: bool,
                                       now2: int, draw2: int, salt2: nat, mail2: bool, later: int)
    requires IsOtpDraw(draw1) && IsOtpDraw(draw2) && draw1 != draw2
    requires SignupStep(s, h, fullName, email, password, now1, draw1, salt1, mail1).1.status != 400
    requires h.hash(password, salt2) != ""
    ensures var s1 := SignupStep(s, h, fullName, email, password, now1, draw1, salt1, mail1).0;
      var s2 := SignupStep(s1, h, fullName, email, password, now2, draw2, salt2, mail2).0;
      VerifyOtpStep(s2, email, GenerateOtp(draw1), later) == (s2, Plain(400, MsgInvalidOtp))
  {
    var s1 := SignupStep(s, h, fullName, email, password, now1, draw1, salt1, mail1).0;
    var s2 := SignupStep(s1, h, fullName, email, password, now2, draw2, salt2, mail2).0;
    var doc2 := OtpRecord(email, GenerateOtp(draw2), fullName, h.hash(password, salt2), false, now2);
    SignupLeavesOneRecord(s1, h, fullName, email, password, now2, draw2, salt2, mail2);
    GenerateOtpInjective(draw1, draw2);
    forall k | 0 <= k < |s2.pending| && s2.pending[k].email == email
      ensures s2.pending[k].otp != GenerateOtp(draw1)
    {
      InForEmail(s2.pending, email, doc2, k);
    }
  }

  /** Verifying with the right code more than 600 seconds after signup fails
      as expired, creates no user and leaves no pending record for the email;
      verifying again with the same code then fails as not found. */
  lemma LateVerifyExpires(s: Store, h: Hasher, fullName: string, email: string, password: string,
                          now: int, draw: int, salt: nat, mailSent: bool, later: int, again: int)
    requires Inv(s) && IsOtpDraw(draw)
    requires SignupStep(s, h, fullName, email, password, now, draw, salt, mailSent).1.status != 400
    requires h.hash(password, salt) != ""
    requires later - now > 600000
    ensures var s1 := SignupStep(s, h, fullName, email, password, now, draw, salt, mailSent).0;
      var (s2, reply) := VerifyOtpStep(s1, email, GenerateOtp(draw), later);
      reply == Plain(400, MsgOtpExpired) && s2.users == s.users &&
      ForEmail(s2.pending, email) == [] &&
      VerifyOtpStep(s2, email, GenerateOtp(draw), again) == (s2, Plain(400, MsgInvalidOtp))
  {
    var s1 := SignupStep(s, h, fullName, email, password, now, draw, salt, mailSent).0;
    var otp := GenerateOtp(draw);
    SignupPreservesInv(s, h, fullName, email, password, now, draw, salt, mailSent);
    SignupRecordIsFound(s, h, fullName, email, password, now, draw, salt, mailSent);
    var i := FindOtp(s1.pending, email, otp).value;
    VerifySucceedsExactly(s1, email, otp, later, i);
    VerifyRefusals(s1, email, otp, later, i);
    VerifyConsumesRecord(s1, email, otp, later);
  }

  /** If the TTL monitor runs between signup and verify, at least 300 seconds
      after the signup, the code no longer verifies: the record is gone and
      the verify finds nothing and changes nothing. */
  lemma TtlPassDropsCode(s: Store, h: Hasher, fullName: string, email: string, password: string,
                         now: int, draw: int, salt: nat, mailSent: bool, sweep: int, later: int)
    requires IsOtpDraw(draw)
    requires SignupStep(s, h, fullName, email, password, now, draw, salt, mailSent).1.status != 400
    requires h.hash(password, salt) != ""
    requires sweep - now >= TtlMs
    ensures var s2 := ExpireStep(SignupStep(s, h, fullName, email, password, now, draw, salt, mailSent).0, sweep);
      VerifyOtpStep(s2, email, GenerateOtp(draw), later) == (s2, Plain(400, MsgInvalidOtp))
  {
    var s1 := SignupStep(s, h, fullName, email, password, now, draw, salt, mailSent).0;
    var s2 := ExpireStep(s1, sweep);
    var doc := OtpRecord(email, GenerateOtp(draw), fullName, h.hash(password, salt), false, now);
    SignupLeavesOneRecord(s, h, fullName, email, password, now, draw, salt, mailSent);
    OnlyForEmail(s1.pending, email, doc);
    forall k | 0 <= k < |s2.pending| ensures s2.pending[k].email != email {
      assert s2.pending[k] in s2.pending;
    }
  }
}
