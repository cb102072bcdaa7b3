/** The older account service of `Service/UserService.java`, over the same
    account rows as the current one: registration with a pending code,
    login that demands a verified account and compares the password as
    given, code verification without an attempt limit, and a resend without
    a cooldown. The mail gateway throws when a message cannot be sent. */
module LegacyAccounts {
  import opened Common
  import opened UserEntity
  import opened Accounts

  // The messages that differ from the current service's.
  const LOGIN_NO_USER: string := "User not found!"
  const NOT_VERIFIED: string := "User is not verified. Please verify OTP first."
  const CODE_EXPIRED: string := "OTP expired"
  const INVALID_OTP: string := "Invalid OTP"

  /** What an operation hands back: its message, or the exception that
      escapes it. */
  datatype Reply = Says(message: string) | Throws(thrown: Thrown)

  /** What the legacy service keeps true of each stored account: it is stored
      under its own address, has an identity, and a code has an expiry. */
  predicate Kept(r: UserRecord, key: string) {
    r.email == Some(key) && r.id.Some? && OtpConsistent(r)
  }

  /** The account table as the legacy service keeps it. */
  ghost predicate LegacyTable(users: map<string, UserRecord>, nextId: int) {
    (forall k | k in users :: Kept(users[k], k) && users[k].id.value < nextId)
    && (forall k1, k2 | k1 in users && k2 in users && k1 != k2 :: users[k1].id != users[k2].id)
  }

  // ----- register -----

  /** The row `register` inserts: the submitted form as it came, with a code
      that expires five minutes on, not verified, under the next identity and
      stamped by the persist hook. The password is stored as submitted. */
  function Pending(form: UserRecord, code: string, id: int, now: Instant): (r: UserRecord)
    ensures r.otp == Some(code) && r.otpExpiry == Some(now + OTP_LIFETIME) && !r.verified
    ensures r.id == Some(id) && r.createdAt == Some(now)
    ensures r.name == form.name && r.email == form.email && r.password == form.password
    ensures r.otpAttempts == form.otpAttempts && r.otpRequestedTime == form.otpRequestedTime
  {
    Created(form.(id := Some(id), otp := Some(code), otpExpiry := Some(now + OTP_LIFETIME), verified := false), now)
  }

  /** The reply of `register` for a free address: the gateway's exception
      when the mail fails (the row is saved already), the success message
      otherwise. */
  function RegisterReply(taken: bool, mailFails: bool): (r: Reply)
    ensures taken ==> r == Says(EMAIL_TAKEN)
    ensures !taken ==> (r.Throws? <==> mailFails)
  {
    if taken then Says(EMAIL_TAKEN)
    else if mailFails then Throws(Thrown(RuntimeException, SEND_FAILED))
    else Says(REGISTERED)
  }

  // ----- loginUser -----

  datatype LoginStep = NoAccount | Unverified | NullPassword | WrongPassword | Granted

  /** The guard ladder of `loginUser`: the account, then its `verified`
      flag, then the stored password compared by `equals` with the one given.
      A stored null password is dereferenced. */
  function JudgeLogin(users: map<string, UserRecord>, email: Option<string>, password: Option<string>): (c: LoginStep)
    ensures c == Granted <==>
              email.Some? && email.value in users && users[email.value].verified
              && users[email.value].password.Some? && users[email.value].password == password
    ensures c == Unverified <==> email.Some? && email.value in users && !users[email.value].verified
  {
    if email.None? || email.value !in users then NoAccount
    else if !users[email.value].verified then Unverified
    else if users[email.value].password.None? then NullPassword
    else if users[email.value].password != password then WrongPassword
    else Granted
  }

  function LoginReply(c: LoginStep): Reply {
    match c
    case NoAccount => Says(LOGIN_NO_USER)
    case Unverified => Says(NOT_VERIFIED)
    case NullPassword => Throws(Thrown(NullPointerException, ""))
    case WrongPassword => Says(INVALID_PASSWORD)
    case Granted => Says(LOGIN_SUCCESSFUL)
  }

  /** The three attributes a successful login writes; there is no `name`. */
  function LegacySignedIn(attrs: map<string, Attribute>, r: UserRecord): (s: map<string, Attribute>)
    ensures r.id.Some? ==> "loggedInUser" in s && s["loggedInUser"] == Number(r.id.value)
                           && "userId" in s && s["userId"] == Number(r.id.value)
    ensures r.email.Some? ==> "email" in s && s["email"] == Text(r.email.value)
    ensures "name" in s <==> "name" in attrs
  {
    var a := SetAttribute(attrs, "loggedInUser", NumberValue(r.id));
    var b := SetAttribute(a, "userId", NumberValue(r.id));
    SetAttribute(b, "email", TextValue(r.email))
  }

  // ----- verifyOtp -----

  datatype VerifyStep = NoUser | Verified | NoCode | Lapsed | WrongCode | RightCode

  /** The guard ladder of `verifyOtp`: account, `verified`, a code, its
      expiry (`isBefore` is strict), then the code compared by `equals`. No
      attempt is counted, so a wrong code is never locked out. */
  function CheckVerify(u: Option<UserRecord>, otp: Option<string>, now: Instant): (c: VerifyStep)
    requires u.Some? ==> OtpConsistent(u.value)
    ensures c == RightCode <==>
              u.Some? && !u.value.verified && u.value.otp.Some? && now <= u.value.otpExpiry.value
              && otp == u.value.otp
  {
    if u.None? then NoUser
    else if u.value.verified then Verified
    else if u.value.otp.None? then NoCode
    else if u.value.otpExpiry.value < now then Lapsed
    else if otp != u.value.otp then WrongCode
    else RightCode
  }

  function VerifyMessage(c: VerifyStep): string {
    match c
    case NoUser => USER_NOT_FOUND
    case Verified => ALREADY_VERIFIED
    case NoCode => OTP_NOT_GENERATED
    case Lapsed => CODE_EXPIRED
    case WrongCode => INVALID_OTP
    case RightCode => OTP_VERIFIED
  }

  /** The account after a right code: verified and its code cleared. */
  function Confirmed(r: UserRecord): (c: UserRecord)
    ensures c.verified && c.otp.None? && c.otpExpiry.None?
    ensures c.id == r.id && c.email == r.email && c.password == r.password && c.name == r.name
  {
    ClearedOtp(r.(verified := true))
  }

  /** The account after one submitted code: only a right code changes it. */
  function AfterCode(r: UserRecord, otp: Option<string>, now: Instant): UserRecord
    requires OtpConsistent(r)
  {
    if CheckVerify(Some(r), otp, now) == RightCode then Confirmed(r) else r
  }

  /** The account after the codes are submitted in turn at `now`. */
  function SubmitCodes(r: UserRecord, codes: seq<Option<string>>, now: Instant): (s: UserRecord)
    requires OtpConsistent(r)
    ensures OtpConsistent(s)
    decreases |codes|
  {
    if codes == [] then r else SubmitCodes(AfterCode(r, codes[0], now), codes[1..], now)
  }

  /** Any number of wrong codes leaves the account as it was, so the right
      code still verifies it afterwards: there is no lock-out. */
  lemma {:induction false} WrongCodesChangeNothing(r: UserRecord, codes: seq<Option<string>>, now: Instant)
    requires OtpConsistent(r) && !r.verified && r.otp.Some?
    requires forall i :: 0 <= i < |codes| ==> codes[i] != r.otp
    ensures SubmitCodes(r, codes, now) == r
    ensures now <= r.otpExpiry.value ==> CheckVerify(Some(SubmitCodes(r, codes, now)), r.otp, now) == RightCode
  {
    if codes != [] {
      assert AfterCode(r, codes[0], now) == r;
      WrongCodesChangeNothing(r, codes[1..], now);
    }
  }

  /** A verified account stays verified: every later code is answered with
      `ALREADY_VERIFIED` and changes nothing. */
  lemma ConfirmedIsFinal(r: UserRecord, otp: Option<string>, now: Instant)
    requires OtpConsistent(r)
    ensures CheckVerify(Some(Confirmed(r)), otp, now) == Verified
    ensures AfterCode(Confirmed(r), otp, now) == Confirmed(r)
  {
  }

  // ----- resendOtp -----

  /** The account after a resend: a new code and expiry; the attempt count
      and request time are left as they were. */
  function Refreshed(r: UserRecord, code: string, now: Instant): (s: UserRecord)
    ensures s.otp == Some(code) && s.otpExpiry == Some(now + OTP_LIFETIME)
    ensures s.(otp := r.otp, otpExpiry := r.otpExpiry) == r
  {
    r.(otp := Some(code), otpExpiry := Some(now + OTP_LIFETIME))
  }

  /** The reply of `resendOtp`; no cooldown is consulted. */
  function ResendReply(u: Option<UserRecord>, mailFails: bool): (r: Reply)
    ensures u.None? ==> r == Says(USER_NOT_FOUND)
    ensures u.Some? && u.value.verified ==> r == Says(ALREADY_VERIFIED)
    ensures u.Some? && !u.value.verified ==> (r.Throws? <==> mailFails)
  {
    if u.None? then Says(USER_NOT_FOUND)
    else if u.value.verified then Says(ALREADY_VERIFIED)
    else if mailFails then Throws(Thrown(RuntimeException, SEND_FAILED))
    else Says(OTP_RESENT)
  }

  /** A code just issued, by registration or by a resend, verifies the
      account at any instant up to its expiry, however recent the previous
      request was. */
  lemma FreshCodeVerifies(form: UserRecord, r: UserRecord, code: string, id: int, now: Instant, t: Instant)
    requires OtpConsistent(r) && !r.verified
    requires now <= t <= now + OTP_LIFETIME
    ensures CheckVerify(Some(Pending(form, code, id, now)), Some(code), t) == RightCode
    ensures CheckVerify(Some(Refreshed(r, code, now)), Some(code), t) == RightCode
    ensures JudgeLogin(map[code := Pending(form, code, id, now)], Some(code), form.password) == Unverified
  {
  }

  /** The legacy service over the account table. `outbox` holds the codes the
      mail gateway accepted. */
  class LegacyUserService {
    var users: map<string, UserRecord>
    var nextId: int
    var outbox: seq<OtpMail>

    ghost predicate Valid()
      reads this
    {
      LegacyTable(users, nextId)
    }

    constructor ()
      ensures Valid() && users == map[] && nextId == 1 && outbox == []
    {
      users := map[];
      nextId := 1;
      outbox := [];
    }

    /** `userRepository.save` of an account loaded by its address. */
    method Save(user: User)
      requires Valid() && user.email.Some? && user.email.value in users
      requires Kept(user.Rec(), user.email.value) && user.id == users[user.email.value].id
      modifies this
      ensures Valid()
      ensures users == old(users)[user.email.value := user.Rec()]
      ensures outbox == old(outbox) && nextId == old(nextId)
    {
      users := users[user.email.value := user.Rec()];
    }

    /** `register(user)`. The form carries an address and no identity. On a
        free address the pending account is saved before the code is
        mailed, so it stays saved when the gateway throws. */
    method Register(form: UserRecord, now: Instant, mailFails: bool) returns (reply: Reply)
      requires Valid() && form.email.Some? && form.id.None?
      modifies this
      ensures Valid()
      ensures reply == RegisterReply(form.email.value in old(users), mailFails)
      ensures form.email.value in old(users) ==>
                users == old(users) && nextId == old(nextId) && outbox == old(outbox)
      ensures form.email.value !in old(users) ==>
                var key := form.email.value;
                key in users && users[key].otp.Some? && IsOtpCode(users[key].otp.value)
                && users == old(users)[key := Pending(form, users[key].otp.value, old(nextId), now)]
                && nextId == old(nextId) + 1
                && outbox == old(outbox) + (if mailFails then [] else [OtpMail(key, users[key].otp.value)])
    {
      var key := form.email.value;
      if key in users {
        return Says(EMAIL_TAKEN);
      }
      var otp := GenerateOtp();
      var row := Pending(form, otp, nextId, now);
      users := users[key := row];
      nextId := nextId + 1;
      if mailFails {
        return Throws(Thrown(RuntimeException, SEND_FAILED));
      }
      outbox := outbox + [OtpMail(key, otp)];
      reply := Says(REGISTERED);
    }

    /** `loginUser(email, password, session)`. */
    method LoginUser(email: Option<string>, password: Option<string>, session: Session) returns (reply: Reply)
      requires Valid()
      modifies session
      ensures reply == LoginReply(JudgeLogin(users, email, password))
      ensures session.attributes ==
                if JudgeLogin(users, email, password) == Granted
                then LegacySignedIn(old(session.attributes), users[email.value])
                else old(session.attributes)
    {
      if email.None? || email.value !in users {
        return Says(LOGIN_NO_USER);
      }
      var user := new User.FromRecord(users[email.value]);
      if !user.verified {
        return Says(NOT_VERIFIED);
      }
      if user.password.None? {
        return Throws(Thrown(NullPointerException, ""));
      }
      if user.password != password {
        return Says(INVALID_PASSWORD);
      }
      session.attributes := SetAttribute(session.attributes, "loggedInUser", NumberValue(user.id));
      session.attributes := SetAttribute(session.attributes, "userId", NumberValue(user.id));
      session.attributes := SetAttribute(session.attributes, "email", TextValue(user.email));
      reply := Says(LOGIN_SUCCESSFUL);
    }

    /** `verifyOtp(email, otp)`: only a right code is saved. */
    method VerifyOtp(email: Option<string>, otp: Option<string>, now: Instant) returns (msg: string)
      requires Valid()
      modifies this
      ensures Valid()
      ensures msg == VerifyMessage(CheckVerify(Lookup(old(users), email), otp, now))
      ensures CheckVerify(Lookup(old(users), email), otp, now) == RightCode ==>
                users == old(users)[email.value := Confirmed(old(users)[email.value])]
      ensures CheckVerify(Lookup(old(users), email), otp, now) != RightCode ==> users == old(users)
      ensures outbox == old(outbox) && nextId == old(nextId)
    {
      if email.None? || email.value !in users {
        return USER_NOT_FOUND;
      }
      var user := new User.FromRecord(users[email.value]);
      if user.verified {
        return ALREADY_VERIFIED;
      }
      if user.otp.None? {
        return OTP_NOT_GENERATED;
      }
      if user.otpExpiry.value < now {
        return CODE_EXPIRED;
      }
      if user.otp != otp {
        return INVALID_OTP;
      }
      user.verified := true;
      user.ClearOtp();
      Save(user);
      msg := OTP_VERIFIED;
    }

    /** `resendOtp(email)`: the new code is saved before it is mailed. */
    method ResendOtp(email: Option<string>, now: Instant, mailFails: bool) returns (reply: Reply)
      requires Valid()
      modifies this
      ensures Valid()
      ensures reply == ResendReply(Lookup(old(users), email), mailFails)
      ensures Lookup(old(users), email).None? || Lookup(old(users), email).value.verified ==>
                users == old(users) && outbox == old(outbox)
      ensures Lookup(old(users), email).Some? && !Lookup(old(users), email).value.verified ==>
                var key := email.value;
                key in users && users[key].otp.Some? && IsOtpCode(users[key].otp.value)
                && users == old(users)[key := Refreshed(old(users)[key], users[key].otp.value, now)]
                && outbox == old(outbox) + (if mailFails then [] else [OtpMail(key, users[key].otp.value)])
      ensures nextId == old(nextId)
    {
      if email.None? || email.value !in users {
        return Says(USER_NOT_FOUND);
      }
      var key := email.value;
      if users[key].verified {
        return Says(ALREADY_VERIFIED);
      }
      var otp := GenerateOtp();
      users := users[key := Refreshed(users[key], otp, now)];
      if mailFails {
        return Throws(Thrown(RuntimeException, SEND_FAILED));
      }
      outbox := outbox + [OtpMail(key, otp)];
      reply := Says(OTP_RESENT);
    }
  }
}
