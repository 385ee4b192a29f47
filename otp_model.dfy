/** The `Otp` collection of src/models/otp.model.js: one document per pending
    registration, with Mongoose's required-field validation, its defaults, and
    the TTL index that lets the database drop a document 300 seconds after its
    `createdAt`; and the queries the controller runs on that collection.
    Times are integer milliseconds. */
module OtpModel {
  import opened Wrappers

  /** A pending registration. `password` holds the bcrypt hash, never the
      plaintext; `createdAt` is a time in milliseconds. */
  datatype OtpRecord = OtpRecord(
    email: string,
    otp: string,
    fullName: string,
    password: string,
    verified: bool,
    createdAt: int)

  /** `expires: 300` on `createdAt`. */
  const TtlSeconds: nat := 300
  const TtlMs: nat := TtlSeconds * 1000

  /** Builds a document the way `new Otp({...}).save()` does: a missing or empty
      required String path fails validation; `verified` defaults to false and
      `createdAt` to the current time `now` unless given. */
  function NewOtp(email: string, otp: string, fullName: string, password: string,
                  verified: Option<bool>, createdAt: Option<int>, now: int): (r: Result<OtpRecord>)
    ensures r.Ok? <==> email != "" && otp != "" && fullName != "" && password != ""
    ensures r.Ok? ==>
      r.value.email == email && r.value.otp == otp &&
      r.value.fullName == fullName && r.value.password == password
    ensures r.Ok? && verified.None? ==> !r.value.verified
    ensures r.Ok? && verified.Some? ==> r.value.verified == verified.value
    ensures r.Ok? && createdAt.None? ==> r.value.createdAt == now
    ensures r.Ok? && createdAt.Some? ==> r.value.createdAt == createdAt.value
  {
    if email == "" then Err("Path `email` is required.")
    else if otp == "" then Err("Path `otp` is required.")
    else if fullName == "" then Err("Path `fullName` is required.")
    else if password == "" then Err("Path `password` is required.")
    else
      Ok(OtpRecord(email, otp, fullName, password,
                   if verified.Some? then verified.value else false,
                   if createdAt.Some? then createdAt.value else now))
  }

  /** The TTL index allows the database to drop `rec` at time `now`. */
  predicate TtlElapsed(rec: OtpRecord, now: int) {
    now - rec.createdAt >= TtlMs
  }

  /** The documents of `pending` that satisfy `keep`, in collection order: what
      remains after a `deleteMany` of the others. */
  function Keep(pending: seq<OtpRecord>, keep: OtpRecord -> bool): (r: seq<OtpRecord>)
    ensures |r| <= |pending|
    ensures forall rec :: rec in r <==> rec in pending && keep(rec)
  {
    if pending == [] then []
    else (if keep(pending[0]) then [pending[0]] else []) + Keep(pending[1..], keep)
  }

  lemma {:induction false} KeepConcat(p: seq<OtpRecord>, q: seq<OtpRecord>, keep: OtpRecord -> bool)
    ensures Keep(p + q, keep) == Keep(p, keep) + Keep(q, keep)
  {
    if p != [] {
      assert (p + q)[0] == p[0] && (p + q)[1..] == p[1..] + q;
      KeepConcat(p[1..], q, keep);
      calc {
        Keep(p + q, keep);
        (if keep(p[0]) then [p[0]] else []) + Keep(p[1..] + q, keep);
        (if keep(p[0]) then [p[0]] else []) + (Keep(p[1..], keep) + Keep(q, keep));
        ((if keep(p[0]) then [p[0]] else []) + Keep(p[1..], keep)) + Keep(q, keep);
        Keep(p, keep) + Keep(q, keep);
      }
    } else {
      assert p + q == q;
    }
  }

  /** `Otp.deleteMany({ email })`: removes exactly the documents of `email`
      and keeps every other one, in order. */
  function WithoutEmail(pending: seq<OtpRecord>, email: string): (r: seq<OtpRecord>)
    ensures forall rec :: rec in r <==> rec in pending && rec.email != email
    ensures ForEmail(r, email) == []
  {
    var kept := Keep(pending, (rec: OtpRecord) => rec.email != email);
    assert forall j :: 0 <= j < |kept| ==> kept[j] in kept && kept[j].email != email;
    KeepNone(kept, (rec: OtpRecord) => rec.email == email);
    kept
  }

  /** The documents for `email`, as `Otp.find({ email })` would list them. */
  function ForEmail(pending: seq<OtpRecord>, email: string): seq<OtpRecord> {
    Keep(pending, (rec: OtpRecord) => rec.email == email)
  }

  /** One pass of the TTL monitor at time `now`: every record whose TTL has
      elapsed is dropped, every other record is kept, in order. The monitor runs
      lazily, so a pass may come late or not at all; callers model that by
      choosing when to apply it. */
  function TtlSweep(pending: seq<OtpRecord>, now: int): (r: seq<OtpRecord>)
    ensures forall rec :: rec in r <==> rec in pending && now - rec.createdAt < TtlSeconds * 1000
  {
    Keep(pending, (rec: OtpRecord) => !TtlElapsed(rec, now))
  }

  /** `Otp.findOne({ email, otp })`: the position of the first document whose
      email and code both equal the inputs exactly, or None when there is none. */
  function FindOtp(pending: seq<OtpRecord>, email: string, otp: string): (r: Option<nat>)
    ensures r.Some? ==>
      r.value < |pending| && pending[r.value].email == email && pending[r.value].otp == otp
    ensures r.Some? ==>
      forall j :: 0 <= j < r.value ==> !(pending[j].email == email && pending[j].otp == otp)
    ensures r.None? <==> forall j :: 0 <= j < |pending| ==> !(pending[j].email == email && pending[j].otp == otp)
  {
    if pending == [] then None
    else if pending[0].email == email && pending[0].otp == otp then Some(0)
    else
      match FindOtp(pending[1..], email, otp)
      case None => None
      case Some(k) => Some(k + 1)
  }

  /** `Otp.deleteOne({ _id })` for the document at position `i`. */
  function RemoveAt(pending: seq<OtpRecord>, i: nat): (r: seq<OtpRecord>)
    requires i < |pending|
    ensures |r| == |pending| - 1
    ensures forall j :: 0 <= j < i ==> r[j] == pending[j]
    ensures forall j :: i <= j < |r| ==> r[j] == pending[j + 1]
  {
    pending[..i] + pending[i + 1..]
  }

  /** At most one document per email. */
  predicate UniqueEmails(pending: seq<OtpRecord>) {
    forall i, j :: 0 <= i < j < |pending| ==> pending[i].email != pending[j].email
  }

  lemma {:induction false} KeepUnique(pending: seq<OtpRecord>, keep: OtpRecord -> bool)
    requires UniqueEmails(pending)
    ensures UniqueEmails(Keep(pending, keep))
  {
    if pending != [] {
      var tail := pending[1..];
      assert UniqueEmails(tail) by {
        forall i, j | 0 <= i < j < |tail| ensures tail[i].email != tail[j].email {
          assert tail[i] == pending[i + 1] && tail[j] == pending[j + 1];
        }
      }
      KeepUnique(tail, keep);
      var kept := Keep(tail, keep);
      forall k | 0 <= k < |kept| ensures kept[k].email != pending[0].email {
        assert kept[k] in tail;
        var m :| 0 <= m < |tail| && tail[m] == kept[k];
        assert tail[m] == pending[m + 1];
      }
    }
  }

  /** Nothing is kept when no document satisfies `keep`. */
  lemma {:induction false} KeepNone(pending: seq<OtpRecord>, keep: OtpRecord -> bool)
    requires forall j :: 0 <= j < |pending| ==> !keep(pending[j])
    ensures Keep(pending, keep) == []
  {
    if pending != [] {
      KeepNone(pending[1..], keep);
    }
  }

  /** Under UniqueEmails, the documents for `email` are at most one. */
  lemma {:induction false} UniqueForEmail(pending: seq<OtpRecord>, email: string)
    requires UniqueEmails(pending)
    ensures |ForEmail(pending, email)| <= 1
  {
    if pending != [] {
      var tail := pending[1..];
      if pending[0].email == email {
        KeepNone(tail, (rec: OtpRecord) => rec.email == email);
      } else {
        UniqueForEmail(tail, email);
      }
    }
  }
}
