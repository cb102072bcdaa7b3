/** The account service of `service/UserService.java`: registration, login,
    e-mail verification by one-time code (OTP), the password-reset flow and
    the profile update. Each operation first decides which branch of its
    guard ladder applies (the `Check...` functions), then changes the stored
    account exactly as that branch does. */
module Accounts {
  import opened Common
  import opened UserEntity

  const OTP_EXPIRY_MINUTES: int := 5
  const OTP_RESEND_COOLDOWN_SECONDS: int := 30
  const MAX_OTP_ATTEMPTS: int := 5

  /** How long a freshly issued code stays valid, in seconds. */
  const OTP_LIFETIME: int := OTP_EXPIRY_MINUTES * SECONDS_PER_MINUTE

  /** The session attribute that records a verified password-reset code. */
  const RESET_OTP_VERIFIED: string := "RESET_OTP_VERIFIED"

  // The messages the operations return or throw.
  const FIELDS_REQUIRED: string := "All fields are required"
  const NAME_LENGTH: string := "Name must be between 2 and 50 characters"
  const INVALID_EMAIL: string := "Invalid email address"
  const PASSWORD_RULE: string :=
    "Password must be at least 8 characters, contain uppercase, lowercase, number, and special character"
  const EMAIL_TAKEN: string := "An account with this email already exists"
  const REGISTERED_MAIL_FAILED: string :=
    "Registration successful, but OTP email could not be sent. Please try resending OTP."
  const REGISTERED: string := "Registration successful. Please verify OTP."
  const CREDENTIALS_REQUIRED: string := "Email and password are required"
  const USER_NOT_FOUND: string := "User not found"
  const INVALID_PASSWORD: string := "Invalid password"
  const LOGIN_SUCCESSFUL: string := "Login successful"
  const OTP_EMPTY: string := "OTP cannot be empty"
  const INVALID_OTP_FORMAT: string := "Invalid OTP format"
  const ALREADY_VERIFIED: string := "User already verified"
  const OTP_NOT_GENERATED: string := "OTP not generated"
  const OTP_EXPIRED: string := "OTP expired. Please request a new one"
  const OTP_ATTEMPTS_EXCEEDED: string := "You have exceeded OTP attempts. Please request a new OTP"
  const OTP_INCORRECT: string := "Incorrect OTP. Please try again"
  const OTP_VERIFIED: string := "OTP verified successfully"
  const NO_OTP_NEEDED: string := "User already verified. No OTP needed"
  const OTP_COOLDOWN: string := "OTP was already sent. Please wait before requesting again"
  const OTP_SEND_FAILED: string := "OTP could not be sent. Please try again later"
  const OTP_RESENT: string := "OTP resent successfully"
  const EMAIL_REQUIRED: string := "Email is required"
  const NO_ACCOUNT: string := "No account found with this email"
  const RESET_OTP_SENT: string := "OTP sent to your registered email successfully"
  const OTP_REQUIRED: string := "OTP is required"
  const RESET_OTP_NOT_GENERATED: string := "OTP not generated. Please request one first"
  const RESET_OTP_EXPIRED: string := "OTP expired. Please request again"
  const RESET_OTP_INCORRECT: string := "Invalid OTP. Please try again"
  const PASSWORDS_REQUIRED: string := "Both password fields are required"
  const PASSWORDS_DIFFER: string := "Passwords do not match"
  const UNAUTHORIZED_RESET: string := "Unauthorized password reset attempt"
  const SAME_PASSWORD: string :=
    "New password cannot be the same as the old password. Please choose a different one"
  const PASSWORD_RESET: string := "Password reset successful. Please login"
  const USERNAME_EMPTY: string := "Username cannot be empty"
  const USERNAME_LENGTH: string := "Username must be between 3 and 30 characters"
  const USERNAME_CHARS: string := "Username contains invalid characters"
  const EMAIL_EMPTY: string := "Email cannot be empty"
  const INVALID_EMAIL_FORMAT: string := "Invalid email format"

  /** One message handed to the mail gateway: recipient and code. */
  datatype OtpMail = OtpMail(to: string, otp: string)

  // ---------------------------------------------------------------------
  // Input rules
  // ---------------------------------------------------------------------

  /** `\w` of `java.util.regex` (ASCII letters, digits and `_`). */
  predicate IsWordChar(c: char) {
    'a' <= c <= 'z' || 'A' <= c <= 'Z' || '0' <= c <= '9' || c == '_'
  }

  /** `[\w-]`. */
  predicate IsLabelChar(c: char) {
    IsWordChar(c) || c == '-'
  }

  /** `[\w-\.]+`: the part before the `@`. */
  predicate IsLocalPart(s: string) {
    |s| > 0 && forall i :: 0 <= i < |s| ==> IsLabelChar(s[i]) || s[i] == '.'
  }

  /** `([\w-]+\.)+` without its final dot: one or more non-empty labels joined
      by single dots. */
  predicate IsLabelPath(s: string) {
    |s| > 0 && s[0] != '.' && s[|s| - 1] != '.'
    && (forall i :: 0 <= i < |s| ==> IsLabelChar(s[i]) || s[i] == '.')
    && (forall i :: 0 <= i < |s| - 1 && s[i] == '.' ==> s[i + 1] != '.')
  }

  /** `[\w-]{2,4}`. */
  predicate IsTopLabel(s: string) {
    2 <= |s| <= 4 && forall i :: 0 <= i < |s| ==> IsLabelChar(s[i])
  }

  /** `isValidEmail`: the whole string matches `^[\w-\.]+@([\w-]+\.)+[\w-]{2,4}$`.
      `a` is the `@` and `k` the dot before the last label. */
  predicate IsValidEmail(e: string) {
    exists a, k :: 0 <= a < k < |e| && e[a] == '@' && e[k] == '.'
      && IsLocalPart(e[..a]) && IsLabelPath(e[a + 1..k]) && IsTopLabel(e[k + 1..])
  }

  /** The special characters of the password rule. */
  predicate IsPasswordSpecial(c: char) {
    c in "@$!%*?&"
  }

  /** `[A-Za-z\d@$!%*?&]`. */
  predicate IsPasswordChar(c: char) {
    'A' <= c <= 'Z' || 'a' <= c <= 'z' || '0' <= c <= '9' || IsPasswordSpecial(c)
  }

  /** `isValidPassword`: at least eight characters from the allowed class,
      with a lower-case letter, an upper-case letter, a digit and a special
      character among them. */
  predicate IsValidPassword(p: string) {
    |p| >= 8
    && (forall i :: 0 <= i < |p| ==> IsPasswordChar(p[i]))
    && (exists i :: 0 <= i < |p| && 'a' <= p[i] <= 'z')
    && (exists i :: 0 <= i < |p| && 'A' <= p[i] <= 'Z')
    && (exists i :: 0 <= i < |p| && '0' <= p[i] <= '9')
    && (exists i :: 0 <= i < |p| && IsPasswordSpecial(p[i]))
  }

  /** `otp.matches("\\d{6}")`. */
  predicate IsSixDigits(s: string) {
    |s| == 6 && forall i :: 0 <= i < |s| ==> '0' <= s[i] <= '9'
  }

  /** The codes `generateOtp` can produce: the numbers 100000 to 999999. */
  predicate IsOtpCode(s: string) {
    IsSixDigits(s) && s[0] != '0'
  }

  /** A string of digits is never blank. */
  lemma DigitsNotBlank(s: string)
    requires IsSixDigits(s)
    ensures !IsBlank(s)
  {
    assert !IsWhitespace(s[0]);
  }

  /** `generateOtp`: some number from 100000 to 999999 in decimal. The random
      draw is a free choice. */
  method GenerateOtp() returns (otp: string)
    ensures IsOtpCode(otp)
    ensures 100000 <= DigitsValue(otp) <= 999999
  {
    var n :| 100000 <= n <= 999999;
    otp := NatText(n);
    NatTextLength(n, 5);
    NatTextValue(n);
  }

  // ---------------------------------------------------------------------
  // The stored account and the OTP state machine
  // ---------------------------------------------------------------------

  /** The account stored under `email`, if there is one (`findByEmail`). */
  function Lookup(users: map<string, UserRecord>, email: Option<string>): (u: Option<UserRecord>)
    ensures u.Some? <==> email.Some? && email.value in users
    ensures u.Some? ==> u.value == users[email.value]
  {
    if email.Some? && email.value in users then Some(users[email.value]) else None
  }

  /** A stored code always has an expiry: every operation that sets the one
      sets the other. */
  predicate OtpConsistent(r: UserRecord) {
    r.otp.Some? ==> r.otpExpiry.Some?
  }

  /** What the service keeps true of each stored account. */
  predicate Stored(r: UserRecord, key: string) {
    r.email == Some(key) && r.id.Some? && r.name.Some? && r.password.Some?
    && 0 <= r.otpAttempts <= MAX_OTP_ATTEMPTS && OtpConsistent(r)
  }

  /** The verdict on a submitted code once the account is known, in the order
      both `verifyOtp` and `verifyResetOtp` test it. `isBefore` is strict, so
      a code is still good at the instant of its expiry. */
  datatype OtpVerdict = NotGenerated | Expired | Exhausted | Mismatch | Match

  function JudgeOtp(r: UserRecord, code: string, now: Instant): OtpVerdict
    requires OtpConsistent(r)
  {
    if r.otp.None? then NotGenerated
    else if r.otpExpiry.value < now then Expired
    else if r.otpAttempts >= MAX_OTP_ATTEMPTS then Exhausted
    else if r.otp.value != code then Mismatch
    else Match
  }

  /** The change a judged code makes: a miss counts one attempt, a hit clears
      the code, the other verdicts change nothing. */
  function AfterAttempt(r: UserRecord, v: OtpVerdict): UserRecord {
    match v
    case Mismatch => r.(otpAttempts := r.otpAttempts + 1)
    case Match => ClearedOtp(r)
    case _ => r
  }

  /** A fresh code issued at `now` by `resendOtp` or `sendResetOtp`. */
  function Rotated(r: UserRecord, code: string, now: Instant): UserRecord {
    r.(otp := Some(code), otpExpiry := Some(now + OTP_LIFETIME), otpAttempts := 0,
       otpRequestedTime := Some(now))
  }

  /** The resend cooldown: a code was requested less than 30 seconds ago. */
  predicate InCooldown(r: UserRecord, now: Instant) {
    r.otpRequestedTime.Some? && now < r.otpRequestedTime.value + OTP_RESEND_COOLDOWN_SECONDS
  }

  /** `users1` is `users0` with a fresh code issued at `now` for `key`. */
  ghost predicate Reissued(users0: map<string, UserRecord>, users1: map<string, UserRecord>, key: string, now: Instant) {
    key in users0 && key in users1 && users1[key].otp.Some? && IsOtpCode(users1[key].otp.value)
    && users1 == users0[key := Rotated(users0[key], users1[key].otp.value, now)]
  }

  /** The account table: each row is `Stored` under its own key, and the
      identities are distinct and below `nextId`. */
  ghost predicate AccountTable(users: map<string, UserRecord>, nextId: int) {
    (forall k | k in users :: Stored(users[k], k) && users[k].id.value < nextId)
    && (forall k1, k2 | k1 in users && k2 in users && k1 != k2 :: users[k1].id != users[k2].id)
  }

  lemma ReplaceKeepsTable(users: map<string, UserRecord>, nextId: int, key: string, r: UserRecord)
    requires AccountTable(users, nextId) && key in users && Stored(r, key) && r.id == users[key].id
    ensures AccountTable(users[key := r], nextId)
  {
  }

  lemma InsertKeepsTable(users: map<string, UserRecord>, nextId: int, key: string, r: UserRecord)
    requires AccountTable(users, nextId) && key !in users && Stored(r, key) && r.id == Some(nextId)
    ensures AccountTable(users[key := r], nextId + 1)
  {
  }

  lemma RekeyKeepsTable(users: map<string, UserRecord>, nextId: int, key: string, key': string, r: UserRecord)
    requires AccountTable(users, nextId) && key in users && Stored(r, key') && r.id == users[key].id
    requires key' in users ==> users[key'].id == r.id
    ensures AccountTable((users - {key})[key' := r], nextId)
  {
  }

  // ---------------------------------------------------------------------
  // register
  // ---------------------------------------------------------------------

  datatype RegisterCheck = MissingField | BadNameLength | BadEmail | WeakPassword | EmailTaken | Accepted

  function CheckRegistration(name: Option<string>, email: Option<string>, password: Option<string>,
                             users: map<string, UserRecord>): RegisterCheck
  {
    if NullOrBlank(name) || NullOrBlank(email) || NullOrBlank(password) then MissingField
    else if Utf16Length(name.value) < 2 || Utf16Length(name.value) > 50 then BadNameLength
    else if !IsValidEmail(email.value) then BadEmail
    else if !IsValidPassword(password.value) then WeakPassword
    else if email.value in users then EmailTaken
    else Accepted
  }

  function RegisterMessage(c: RegisterCheck, mailSent: bool): string {
    match c
    case MissingField => FIELDS_REQUIRED
    case BadNameLength => NAME_LENGTH
    case BadEmail => INVALID_EMAIL
    case WeakPassword => PASSWORD_RULE
    case EmailTaken => EMAIL_TAKEN
    case Accepted =>
      if mailSent then REGISTERED
      else REGISTERED_MAIL_FAILED
  }

  /** The row `register` inserts: a `new User()` with the form fields, the
      hashed password and a pending code, stamped by `onCreate`. */
  function NewAccount(id: int, name: string, email: string, passwordHash: string, code: string,
                      now: Instant): UserRecord
  {
    Created(EMPTY_USER.(id := Some(id), name := Some(name), email := Some(email),
                        password := Some(passwordHash), verified := false, otp := Some(code),
                        otpExpiry := Some(now + OTP_LIFETIME), otpAttempts := 0,
                        otpRequestedTime := Some(now)), now)
  }

  /** Registration is accepted exactly when every field is present, the name
      has 2 to 50 UTF-16 code units, both formats match and the address is free. */
  lemma RegistrationAccepted(name: Option<string>, email: Option<string>, password: Option<string>,
                             users: map<string, UserRecord>)
    ensures CheckRegistration(name, email, password, users) == Accepted <==>
      name.Some? && email.Some? && password.Some?
      && !IsBlank(name.value) && !IsBlank(email.value) && !IsBlank(password.value)
      && 2 <= Utf16Length(name.value) <= 50 && IsValidEmail(email.value) && IsValidPassword(password.value)
      && email.value !in users
  {
  }

  /** The sample address of the service's tests is well formed. */
  lemma SampleEmailValid()
    ensures IsValidEmail("test@example.com")
  {
    var e := "test@example.com";
    assert e[..4] == "test";
    assert forall i :: 0 <= i < 7 ==> e[5..12][i] == "example"[i];
    assert e[5..12] == "example";
    assert e[13..] == "com";
    assert 0 <= 4 < 12 < |e| && e[4] == '@' && e[12] == '.'
      && IsLocalPart(e[..4]) && IsLabelPath(e[4 + 1..12]) && IsTopLabel(e[12 + 1..]);
  }

  /** The sample password of the service's tests satisfies the rule. */
  lemma SamplePasswordValid()
    ensures IsValidPassword("Test@1234")
  {
    var p := "Test@1234";
    assert 'a' <= p[1] <= 'z' && 'A' <= p[0] <= 'Z' && '0' <= p[5] <= '9' && IsPasswordSpecial(p[4]);
  }

  /** The sample account of the service's tests registers on an empty store,
      and is refused once its address is taken. */
  lemma SampleRegistration(r: UserRecord)
    ensures CheckRegistration(Some("Test User"), Some("test@example.com"), Some("Test@1234"), map[]) == Accepted
    ensures CheckRegistration(Some("Test User"), Some("test@example.com"), Some("Test@1234"),
                              map["test@example.com" := r]) == EmailTaken
  {
    SampleEmailValid();
    SamplePasswordValid();
    SampleNotBlank();
  }

  /** None of the test's fields is blank. */
  lemma SampleNotBlank()
    ensures !IsBlank("Test User") && !IsBlank("test@example.com") && !IsBlank("Test@1234")
  {
    assert !IsWhitespace("Test User"[0]) && !IsWhitespace("test@example.com"[0]) && !IsWhitespace("Test@1234"[0]);
  }

  /** A code from registration verifies until its expiry, inclusive, and is
      expired one second later. */
  lemma NewAccountVerifies(id: int, name: string, email: string, h: string, code: string,
                           created: Instant, now: Instant)
    requires IsOtpCode(code) && created <= now
    ensures now <= created + OTP_LIFETIME ==>
      CheckVerifyOtp(Some(NewAccount(id, name, email, h, code, created)), Some(code), now) == Judged(Match)
    ensures now > created + OTP_LIFETIME ==>
      CheckVerifyOtp(Some(NewAccount(id, name, email, h, code, created)), Some(code), now) == Judged(Expired)
  {
    DigitsNotBlank(code);
  }

  // ---------------------------------------------------------------------
  // loginUser
  // ---------------------------------------------------------------------

  datatype LoginCheck = LoginMissing | LoginNoUser | LoginBadPassword | LoginGranted

  /** There is no `verified` test: an account logs in before verifying. */
  function CheckLogin(email: Option<string>, password: Option<string>, users: map<string, UserRecord>,
                      hash: string -> string): LoginCheck
  {
    if NullOrBlank(email) || NullOrBlank(password) then LoginMissing
    else if email.value !in users then LoginNoUser
    else if users[email.value].password != Some(hash(password.value)) then LoginBadPassword
    else LoginGranted
  }

  function LoginMessage(c: LoginCheck): string {
    match c
    case LoginMissing => CREDENTIALS_REQUIRED
    case LoginNoUser => USER_NOT_FOUND
    case LoginBadPassword => INVALID_PASSWORD
    case LoginGranted => LOGIN_SUCCESSFUL
  }

  /** The four attributes a successful login writes. */
  function SignedIn(attrs: map<string, Attribute>, r: UserRecord): map<string, Attribute> {
    var a := SetAttribute(attrs, "loggedInUser", NumberValue(r.id));
    var b := SetAttribute(a, "userId", NumberValue(r.id));
    var c := SetAttribute(b, "email", TextValue(r.email));
    SetAttribute(c, "name", TextValue(r.name))
  }

  /** An unverified account with the right password logs in, and the session
      then names it. */
  lemma UnverifiedLogsIn(users: map<string, UserRecord>, key: string, password: string,
                         hash: string -> string, attrs: map<string, Attribute>)
    requires key in users && Stored(users[key], key) && !users[key].verified
    requires users[key].password == Some(hash(password))
    requires !IsBlank(key) && !IsBlank(password)
    ensures CheckLogin(Some(key), Some(password), users, hash) == LoginGranted
    ensures SignedIn(attrs, users[key])["userId"] == Number(users[key].id.value)
    ensures SignedIn(attrs, users[key])["email"] == Text(key)
  {
  }

  // ---------------------------------------------------------------------
  // verifyOtp
  // ---------------------------------------------------------------------

  datatype VerifyCheck = EmptyOtp | BadOtpFormat | NoSuchUser | AlreadyVerified | Judged(verdict: OtpVerdict)

  function CheckVerifyOtp(u: Option<UserRecord>, otp: Option<string>, now: Instant): VerifyCheck
    requires u.Some? ==> OtpConsistent(u.value)
  {
    if NullOrBlank(otp) then EmptyOtp
    else if !IsSixDigits(otp.value) then BadOtpFormat
    else if u.None? then NoSuchUser
    else if u.value.verified then AlreadyVerified
    else Judged(JudgeOtp(u.value, otp.value, now))
  }

  function VerifyOtpMessage(c: VerifyCheck): string {
    match c
    case EmptyOtp => OTP_EMPTY
    case BadOtpFormat => INVALID_OTP_FORMAT
    case NoSuchUser => USER_NOT_FOUND
    case AlreadyVerified => ALREADY_VERIFIED
    case Judged(NotGenerated) => OTP_NOT_GENERATED
    case Judged(Expired) => OTP_EXPIRED
    case Judged(Exhausted) => OTP_ATTEMPTS_EXCEEDED
    case Judged(Mismatch) => OTP_INCORRECT
    case Judged(Match) => OTP_VERIFIED
  }

  /** The record after `verifyOtp` judged a code: a hit also verifies. */
  function AfterVerify(r: UserRecord, v: OtpVerdict): UserRecord {
    if v == Match then AfterAttempt(r, v).(verified := true) else AfterAttempt(r, v)
  }

  /** The ladder keeps the counter within 0..5: only a miss counts, and only
      while fewer than five misses are recorded. */
  lemma AttemptsBounded(r: UserRecord, code: string, now: Instant)
    requires OtpConsistent(r) && 0 <= r.otpAttempts <= MAX_OTP_ATTEMPTS
    ensures 0 <= AfterVerify(r, JudgeOtp(r, code, now)).otpAttempts <= MAX_OTP_ATTEMPTS
    ensures JudgeOtp(r, code, now) == Mismatch ==>
      AfterVerify(r, JudgeOtp(r, code, now)) == r.(otpAttempts := r.otpAttempts + 1)
    ensures JudgeOtp(r, code, now) !in {Mismatch, Match} ==> AfterVerify(r, JudgeOtp(r, code, now)) == r
  {
  }

  /** `codes` submitted one after another to `verifyOtp` at `now`. */
  function SubmitAll(r: UserRecord, codes: seq<string>, now: Instant): UserRecord
    requires OtpConsistent(r)
    decreases |codes|
  {
    if codes == [] then r
    else
      var next := AfterVerify(r, JudgeOtp(r, codes[0], now));
      assert OtpConsistent(next);
      SubmitAll(next, codes[1..], now)
  }

  /** Wrong codes lock the account: after them the counter is the number of
      misses capped at five, the code itself is kept, and once five misses
      are recorded even the right code is refused. */
  lemma {:induction false} MissesLockOut(r: UserRecord, codes: seq<string>, now: Instant)
    requires OtpConsistent(r) && r.otp.Some? && r.otpExpiry.value >= now
    requires 0 <= r.otpAttempts <= MAX_OTP_ATTEMPTS
    requires forall i :: 0 <= i < |codes| ==> codes[i] != r.otp.value
    ensures SubmitAll(r, codes, now).otpAttempts ==
      if r.otpAttempts + |codes| < MAX_OTP_ATTEMPTS then r.otpAttempts + |codes| else MAX_OTP_ATTEMPTS
    ensures SubmitAll(r, codes, now) == r.(otpAttempts := SubmitAll(r, codes, now).otpAttempts)
    ensures r.otpAttempts + |codes| >= MAX_OTP_ATTEMPTS ==>
      JudgeOtp(SubmitAll(r, codes, now), r.otp.value, now) == Exhausted
    decreases |codes|
  {
    if codes != [] {
      var next := AfterVerify(r, JudgeOtp(r, codes[0], now));
      MissesLockOut(next, codes[1..], now);
    }
  }

  /** Verification is final: a verified account never reaches the code
      comparison, so `verifyOtp` leaves it as it is. */
  lemma VerifiedIsFinal(r: UserRecord, otp: Option<string>, now: Instant)
    requires OtpConsistent(r) && r.verified
    ensures CheckVerifyOtp(Some(r), otp, now) in {EmptyOtp, BadOtpFormat, AlreadyVerified}
  {
  }

  // ---------------------------------------------------------------------
  // resendOtp and sendResetOtp
  // ---------------------------------------------------------------------

  datatype ResendCheck = ResendNoUser | ResendVerified | ResendTooSoon | ResendGranted

  function CheckResend(u: Option<UserRecord>, now: Instant): ResendCheck {
    if u.None? then ResendNoUser
    else if u.value.verified then ResendVerified
    else if InCooldown(u.value, now) then ResendTooSoon
    else ResendGranted
  }

  function ResendMessage(c: ResendCheck, mailSent: bool): string {
    match c
    case ResendNoUser => USER_NOT_FOUND
    case ResendVerified => NO_OTP_NEEDED
    case ResendTooSoon => OTP_COOLDOWN
    case ResendGranted => if mailSent then OTP_RESENT else OTP_SEND_FAILED
  }

  datatype ResetRequestCheck = RequestNoEmail | RequestBadEmail | RequestNoAccount | RequestTooSoon | RequestGranted

  /** `sendResetOtp` checks the address format first and has no `verified`
      test. */
  function CheckResetRequest(email: Option<string>, users: map<string, UserRecord>, now: Instant): ResetRequestCheck {
    if NullOrBlank(email) then RequestNoEmail
    else if !IsValidEmail(email.value) then RequestBadEmail
    else if email.value !in users then RequestNoAccount
    else if InCooldown(users[email.value], now) then RequestTooSoon
    else RequestGranted
  }

  function ResetRequestMessage(c: ResetRequestCheck, mailSent: bool): string {
    match c
    case RequestNoEmail => EMAIL_REQUIRED
    case RequestBadEmail => INVALID_EMAIL
    case RequestNoAccount => NO_ACCOUNT
    case RequestTooSoon => OTP_COOLDOWN
    case RequestGranted => if mailSent then RESET_OTP_SENT else OTP_SEND_FAILED
  }

  /** The cooldown after issuing a code at `t`: another request at `now` is
      refused for the 30 seconds `t .. t+29` and granted from `t+30` on, by
      both request paths. */
  lemma CooldownWindow(r: UserRecord, code: string, t: Instant, now: Instant)
    requires !r.verified && t <= now
    ensures CheckResend(Some(Rotated(r, code, t)), now) ==
      if now < t + OTP_RESEND_COOLDOWN_SECONDS then ResendTooSoon else ResendGranted
    ensures InCooldown(Rotated(r, code, t), now) <==> now < t + OTP_RESEND_COOLDOWN_SECONDS
  {
  }

  /** A reissued code replaces the old one, restarts the counter and lifts an
      attempts lock-out. */
  lemma ReissueUnlocks(r: UserRecord, code: string, now: Instant)
    requires !r.verified
    ensures OtpConsistent(Rotated(r, code, now))
    ensures JudgeOtp(Rotated(r, code, now), code, now) == Match
    ensures forall c :: c != code ==> JudgeOtp(Rotated(r, code, now), c, now) == Mismatch
  {
  }

  // ---------------------------------------------------------------------
  // verifyResetOtp and resetPassword
  // ---------------------------------------------------------------------

  datatype ResetVerifyCheck = ResetNoEmail | ResetNoOtp | ResetBadFormat | ResetNoUser | ResetJudged(verdict: OtpVerdict)

  /** The ladder of `verifyOtp` without its `verified` test. */
  function CheckVerifyReset(email: Option<string>, otp: Option<string>, u: Option<UserRecord>, now: Instant): ResetVerifyCheck
    requires u.Some? ==> OtpConsistent(u.value)
  {
    if NullOrBlank(email) then ResetNoEmail
    else if NullOrBlank(otp) then ResetNoOtp
    else if !IsSixDigits(otp.value) then ResetBadFormat
    else if u.None? then ResetNoUser
    else ResetJudged(JudgeOtp(u.value, otp.value, now))
  }

  function VerifyResetMessage(c: ResetVerifyCheck): string {
    match c
    case ResetNoEmail => EMAIL_REQUIRED
    case ResetNoOtp => OTP_REQUIRED
    case ResetBadFormat => INVALID_OTP_FORMAT
    case ResetNoUser => USER_NOT_FOUND
    case ResetJudged(NotGenerated) => RESET_OTP_NOT_GENERATED
    case ResetJudged(Expired) => RESET_OTP_EXPIRED
    case ResetJudged(Exhausted) => OTP_ATTEMPTS_EXCEEDED
    case ResetJudged(Mismatch) => RESET_OTP_INCORRECT
    case ResetJudged(Match) => OTP_VERIFIED
  }

  /** The value stored under the reset marker, if any. */
  function Marker(attrs: map<string, Attribute>): Option<Attribute> {
    if RESET_OTP_VERIFIED in attrs then Some(attrs[RESET_OTP_VERIFIED]) else None
  }

  datatype ResetCheck =
    | NoEmail | PasswordsMissing | PasswordsDiffer | WeakNewPassword
    | NotAuthorized | ResetPasswordNoUser | SamePassword | ResetAccepted

  /** The reset is authorised only by the marker holding this very address. */
  function CheckReset(email: Option<string>, password: Option<string>, confirm: Option<string>,
                      marker: Option<Attribute>, u: Option<UserRecord>, hash: string -> string): (r: ResetCheck)
    ensures r == ResetAccepted ==>
              email.Some? && password.Some? && confirm == password && IsValidPassword(password.value)
              && marker == Some(Text(email.value))
              && u.Some? && u.value.password != Some(hash(password.value))
  {
    if NullOrBlank(email) then NoEmail
    else if NullOrBlank(password) || NullOrBlank(confirm) then PasswordsMissing
    else if password.value != confirm.value then PasswordsDiffer
    else if !IsValidPassword(password.value) then WeakNewPassword
    else if marker != Some(Text(email.value)) then NotAuthorized
    else if u.None? then ResetPasswordNoUser
    else if u.value.password == Some(hash(password.value)) then SamePassword
    else ResetAccepted
  }

  function ResetMessage(c: ResetCheck): string {
    match c
    case NoEmail => EMAIL_REQUIRED
    case PasswordsMissing => PASSWORDS_REQUIRED
    case PasswordsDiffer => PASSWORDS_DIFFER
    case WeakNewPassword => PASSWORD_RULE
    case NotAuthorized => UNAUTHORIZED_RESET
    case ResetPasswordNoUser => USER_NOT_FOUND
    case SamePassword => SAME_PASSWORD
    case ResetAccepted => PASSWORD_RESET
  }

  /** The record after a successful reset. */
  function PasswordChanged(r: UserRecord, newHash: string): UserRecord {
    ClearedOtp(r.(password := Some(newHash)))
  }

  /** A reset happens only with a marker for this address, two equal
      passwords that satisfy the rule, and a password other than the current
      one. */
  lemma ResetNeedsMarker(email: Option<string>, password: Option<string>, confirm: Option<string>,
                         marker: Option<Attribute>, u: Option<UserRecord>, hash: string -> string)
    requires CheckReset(email, password, confirm, marker, u, hash) == ResetAccepted
    ensures email.Some? && marker == Some(Text(email.value))
    ensures password.Some? && confirm == password && IsValidPassword(password.value)
    ensures u.Some? && u.value.password != Some(hash(password.value))
  {
  }

  /** The two halves of the reset flow fit together: once `verifyResetOtp`
      accepted the code for an address, its marker authorises a reset of that
      account to any valid new password. */
  lemma ResetFlowCompletes(r: UserRecord, key: string, code: string, now: Instant,
                           newPassword: string, hash: string -> string)
    requires Stored(r, key) && !IsBlank(key)
    requires JudgeOtp(r, code, now) == Match
    requires IsValidPassword(newPassword) && r.password != Some(hash(newPassword))
    ensures CheckReset(Some(key), Some(newPassword), Some(newPassword), Some(Text(key)),
                       Some(AfterAttempt(r, Match)), hash) == ResetAccepted
  {
    assert !IsWhitespace(newPassword[0]);
  }

  // ---------------------------------------------------------------------
  // updateProfile
  // ---------------------------------------------------------------------

  /** `^[a-zA-Z0-9_ ]+$`. */
  predicate IsProfileName(s: string) {
    |s| > 0 && forall i :: 0 <= i < |s| ==> IsWordChar(s[i]) || s[i] == ' '
  }

  /** `[A-Za-z0-9+_.-]`. */
  predicate IsProfileLocalChar(c: char) {
    IsWordChar(c) || c == '+' || c == '.' || c == '-'
  }

  /** `[A-Za-z0-9.-]`. */
  predicate IsProfileDomainChar(c: char) {
    'a' <= c <= 'z' || 'A' <= c <= 'Z' || '0' <= c <= '9' || c == '.' || c == '-'
  }

  /** `^[A-Za-z0-9+_.-]+@[A-Za-z0-9.-]+$`. */
  predicate IsProfileEmail(e: string) {
    exists a :: 0 < a < |e| - 1 && e[a] == '@'
      && (forall i :: 0 <= i < a ==> IsProfileLocalChar(e[i]))
      && (forall i :: a < i < |e| ==> IsProfileDomainChar(e[i]))
  }

  /** The stored address is the trimmed, lower-cased input. */
  function NormalisedEmail(email: string): string {
    Lower(Trim(email))
  }

  datatype ProfileCheck =
    | ProfileNoUser | NameEmpty | NameLength | NameChars | EmailEmpty | EmailFormat
    | ProfileEmailTaken | ProfileAccepted

  /** The account key that holds `id`, if any (`findById`). */
  ghost function KeyOfId(users: map<string, UserRecord>, id: int): Option<string> {
    if exists k :: k in users && users[k].id == Some(id) then
      var k :| k in users && users[k].id == Some(id); Some(k)
    else None
  }

  /** The order of the checks; the last one is the `unique` constraint on the
      e-mail column, which fails the final save when another account already
      has the new address. */
  function CheckProfile(u: Option<UserRecord>, name: Option<string>, email: Option<string>,
                        users: map<string, UserRecord>): ProfileCheck
  {
    if u.None? then ProfileNoUser
    else if CheckName(name) != ProfileAccepted then CheckName(name)
    else CheckAddress(u.value.id, email, users)
  }

  /** The name checks, on the trimmed name. */
  function CheckName(name: Option<string>): ProfileCheck {
    if NullOrTrimEmpty(name) then NameEmpty
    else if Utf16Length(Trim(name.value)) < 3 || Utf16Length(Trim(name.value)) > 30 then NameLength
    else if !IsProfileName(Trim(name.value)) then NameChars
    else ProfileAccepted
  }

  /** Lengths are `String.length()`'s: one emoji is two code units, so it
      is a long enough registration name, and two of them pass the profile
      length check and fail only on the character rule. */
  lemma SurrogatePairsCountTwice()
    ensures Utf16Length("\U{1F600}") == 2
    ensures CheckName(Some("\U{1F600}\U{1F600}")) == NameChars
  {
    assert Trim("\U{1F600}\U{1F600}") == "\U{1F600}\U{1F600}";
  }

  /** The address checks, on the normalised address, for the account `id`. */
  function CheckAddress(id: Option<int>, email: Option<string>, users: map<string, UserRecord>): (r: ProfileCheck)
    ensures r == ProfileAccepted ==>
              email.Some? && IsProfileEmail(NormalisedEmail(email.value))
              && (NormalisedEmail(email.value) in users ==> users[NormalisedEmail(email.value)].id == id)
  {
    if NullOrTrimEmpty(email) then EmailEmpty
    else if !IsProfileEmail(NormalisedEmail(email.value)) then EmailFormat
    else if NormalisedEmail(email.value) in users && users[NormalisedEmail(email.value)].id != id then ProfileEmailTaken
    else ProfileAccepted
  }

  function ProfileFailure(c: ProfileCheck): Option<Thrown> {
    match c
    case ProfileNoUser => Some(Thrown(RuntimeException, USER_NOT_FOUND))
    case NameEmpty => Some(Thrown(RuntimeException, USERNAME_EMPTY))
    case NameLength => Some(Thrown(RuntimeException, USERNAME_LENGTH))
    case NameChars => Some(Thrown(RuntimeException, USERNAME_CHARS))
    case EmailEmpty => Some(Thrown(RuntimeException, EMAIL_EMPTY))
    case EmailFormat => Some(Thrown(RuntimeException, INVALID_EMAIL_FORMAT))
    case ProfileEmailTaken => Some(Thrown(DataIntegrityViolation, "email"))
    case ProfileAccepted => None
  }

  /** The record after an accepted update with the trimmed `name` and the
      normalised `address`: `verified` is cleared when the address differs
      from the stored one other than in case. */
  function ProfileUpdated(r: UserRecord, name: string, address: string): UserRecord {
    var changed := r.email.None? || !EqualsIgnoreCase(address, r.email.value);
    r.(name := Some(name), email := Some(address), verified := if changed then false else r.verified)
  }

  /** The table after an accepted update of the account under `key`: the
      updated record, stored under its new address. */
  function Reprofiled(users: map<string, UserRecord>, key: string, name: string, address: string): map<string, UserRecord>
    requires key in users
  {
    (users - {key})[address := ProfileUpdated(users[key], name, address)]
  }

  /** A new address clears `verified`; the stored address typed again in
      other letter case keeps it; nothing but name, address and `verified`
      changes. */
  lemma EmailChangeClearsVerified(r: UserRecord, name: string, email: string)
    requires r.email.Some?
    ensures !EqualsIgnoreCase(NormalisedEmail(email), r.email.value) ==>
      !ProfileUpdated(r, name, NormalisedEmail(email)).verified
    ensures EqualsIgnoreCase(Trim(email), r.email.value) ==>
      ProfileUpdated(r, name, NormalisedEmail(email)).verified == r.verified
    ensures ProfileUpdated(r, name, NormalisedEmail(email)).(name := r.name, email := r.email, verified := r.verified) == r
  {
    LowerIdempotent(Trim(email));
  }

  lemma {:induction false} LowerIdempotent(s: string)
    ensures Lower(Lower(s)) == Lower(s)
  {
  }

  // ---------------------------------------------------------------------
  // The service
  // ---------------------------------------------------------------------

  /** `UserService` over the account table. `users` is the table keyed by
      e-mail address, `nextId` the next identity value, `outbox` the codes
      the mail gateway accepted, `hash` the password encoder. */
  class UserService {
    var users: map<string, UserRecord>
    var nextId: int
    var outbox: seq<OtpMail>
    const hash: string -> string

    ghost predicate Valid()
      reads this
    {
      AccountTable(users, nextId)
    }

    constructor (hash: string -> string)
      ensures Valid() && users == map[] && outbox == [] && this.hash == hash
    {
      users := map[];
      nextId := 1;
      outbox := [];
      this.hash := hash;
    }

    /** `userRepository.save` of an account loaded by its address. */
    method Save(user: User)
      requires Valid() && user.email.Some? && user.email.value in users
      requires Stored(user.Rec(), user.email.value) && user.id == users[user.email.value].id
      modifies this
      ensures Valid()
      ensures users == old(users)[user.email.value := user.Rec()]
      ensures outbox == old(outbox) && nextId == old(nextId)
    {
      ReplaceKeepsTable(users, nextId, user.email.value, user.Rec());
      users := users[user.email.value := user.Rec()];
    }

    /** `userRepository.save` of a new account: the identity value is
        assigned and the persist hook runs. */
    method Insert(user: User, now: Instant)
      requires Valid() && user.email.Some? && user.email.value !in users
      requires Stored(user.Rec().(id := Some(nextId)), user.email.value)
      modifies this, user
      ensures Valid()
      ensures users == old(users)[old(user.email.value) := Created(old(user.Rec()).(id := Some(old(nextId))), now)]
      ensures user.Rec() == Created(old(user.Rec()).(id := Some(old(nextId))), now)
      ensures outbox == old(outbox) && nextId == old(nextId) + 1
    {
      user.id := Some(nextId);
      user.OnCreate(now);
      InsertKeepsTable(users, nextId, user.email.value, user.Rec());
      users := users[user.email.value := user.Rec()];
      nextId := nextId + 1;
    }

    method Register(name: Option<string>, email: Option<string>, password: Option<string>,
                    now: Instant, mailFails: bool) returns (msg: string)
      requires Valid()
      modifies this
      ensures Valid()
      ensures msg == RegisterMessage(CheckRegistration(name, email, password, old(users)), !mailFails)
      ensures CheckRegistration(name, email, password, old(users)) != Accepted ==>
        users == old(users) && outbox == old(outbox) && nextId == old(nextId)
      ensures CheckRegistration(name, email, password, old(users)) == Accepted ==>
        email.Some? && email.value in users && users[email.value].otp.Some?
        && IsOtpCode(users[email.value].otp.value)
        && users == old(users)[email.value := NewAccount(old(nextId), name.value, email.value,
                                                         hash(password.value), users[email.value].otp.value, now)]
        && nextId == old(nextId) + 1
        && outbox == old(outbox) + (if mailFails then [] else [OtpMail(email.value, users[email.value].otp.value)])
    {
      var c := CheckRegistration(name, email, password, users);
      if c != Accepted {
        return RegisterMessage(c, true);
      }
      var otp := CreateAccount(name.value, email.value, hash(password.value), now);
      if mailFails {
        return REGISTERED_MAIL_FAILED;
      }
      outbox := outbox + [OtpMail(email.value, otp)];
      return REGISTERED;
    }

    /** The saving half of `register`: a `new User()` with the form fields,
        the hashed password and a pending code, inserted. */
    method CreateAccount(name: string, email: string, passwordHash: string, now: Instant) returns (otp: string)
      requires Valid() && email !in users
      modifies this
      ensures Valid()
      ensures IsOtpCode(otp)
      ensures users == old(users)[email := NewAccount(old(nextId), name, email, passwordHash, otp, now)]
      ensures outbox == old(outbox) && nextId == old(nextId) + 1
    {
      var user := new User();
      user.name, user.email, user.password := Some(name), Some(email), Some(passwordHash);
      otp := GenerateOtp();
      user.otp := Some(otp);
      user.otpExpiry := Some(now + OTP_LIFETIME);
      user.verified := false;
      user.otpAttempts := 0;
      user.otpRequestedTime := Some(now);
      Insert(user, now);
    }

    method LoginUser(email: Option<string>, password: Option<string>, session: Session) returns (msg: string)
      requires Valid()
      modifies session
      ensures msg == LoginMessage(CheckLogin(email, password, users, hash))
      ensures session.attributes ==
        if CheckLogin(email, password, users, hash) == LoginGranted
        then SignedIn(old(session.attributes), users[email.value])
        else old(session.attributes)
    {
      if email.None? || IsBlank(email.value) || password.None? || IsBlank(password.value) {
        return CREDENTIALS_REQUIRED;
      }
      if email.value !in users {
        return USER_NOT_FOUND;
      }
      var user := new User.FromRecord(users[email.value]);
      if user.password != Some(hash(password.value)) {
        return INVALID_PASSWORD;
      }
      session.attributes := SetAttribute(session.attributes, "loggedInUser", NumberValue(user.id));
      session.attributes := SetAttribute(session.attributes, "userId", NumberValue(user.id));
      session.attributes := SetAttribute(session.attributes, "email", TextValue(user.email));
      session.attributes := SetAttribute(session.attributes, "name", TextValue(user.name));
      return LOGIN_SUCCESSFUL;
    }

    method VerifyOtp(email: Option<string>, otp: Option<string>, now: Instant) returns (msg: string)
      requires Valid()
      modifies this
      ensures Valid()
      ensures msg == VerifyOtpMessage(CheckVerifyOtp(Lookup(old(users), email), otp, now))
      ensures CheckVerifyOtp(Lookup(old(users), email), otp, now).Judged? ==>
        email.Some? && email.value in old(users)
        && users == old(users)[email.value := AfterVerify(old(users)[email.value],
                                                          CheckVerifyOtp(Lookup(old(users), email), otp, now).verdict)]
      ensures !CheckVerifyOtp(Lookup(old(users), email), otp, now).Judged? ==> users == old(users)
      ensures outbox == old(outbox) && nextId == old(nextId)
    {
      if otp.None? || IsBlank(otp.value) {
        return OTP_EMPTY;
      }
      if !IsSixDigits(otp.value) {
        return INVALID_OTP_FORMAT;
      }
      if email.None? || email.value !in users {
        return USER_NOT_FOUND;
      }
      if users[email.value].verified {
        return ALREADY_VERIFIED;
      }
      var v := Attempt(email.value, otp.value, now, true);
      return VerifyOtpMessage(Judged(v));
    }

    /** Judges `code` against the code stored for the account under `key`
        and saves what the verdict changes: a miss counts an attempt, a hit
        clears the code and, when `verify` holds, verifies the account. */
    method Attempt(key: string, code: string, now: Instant, verify: bool) returns (v: OtpVerdict)
      requires Valid() && key in users
      modifies this
      ensures Valid()
      ensures v == JudgeOtp(old(users)[key], code, now)
      ensures users == old(users)[key := if verify then AfterVerify(old(users)[key], v)
                                        else AfterAttempt(old(users)[key], v)]
      ensures outbox == old(outbox) && nextId == old(nextId)
    {
      var user := new User.FromRecord(users[key]);
      if user.otp.None? {
        return NotGenerated;
      }
      if user.otpExpiry.value < now {
        return Expired;
      }
      if user.otpAttempts >= MAX_OTP_ATTEMPTS {
        return Exhausted;
      }
      if user.otp.value != code {
        user.otpAttempts := user.otpAttempts + 1;
        Save(user);
        return Mismatch;
      }
      if verify {
        user.verified := true;
      }
      user.ClearOtp();
      Save(user);
      return Match;
    }

    /** Issues and saves a fresh code for the account under `key`, then hands
        it to the mail gateway; the saved code stays when the mail fails. */
    method Reissue(key: string, now: Instant, mailFails: bool)
      requires Valid() && key in users
      modifies this
      ensures Valid()
      ensures Reissued(old(users), users, key, now)
      ensures outbox == old(outbox) + (if mailFails then [] else [OtpMail(key, users[key].otp.value)])
      ensures nextId == old(nextId)
    {
      var user := new User.FromRecord(users[key]);
      var otp := GenerateOtp();
      user.otp := Some(otp);
      user.otpExpiry := Some(now + OTP_LIFETIME);
      user.otpAttempts := 0;
      user.otpRequestedTime := Some(now);
      Save(user);
      if !mailFails {
        outbox := outbox + [OtpMail(key, otp)];
      }
    }

    method ResendOtp(email: Option<string>, now: Instant, mailFails: bool) returns (msg: string)
      requires Valid()
      modifies this
      ensures Valid()
      ensures msg == ResendMessage(CheckResend(Lookup(old(users), email), now), !mailFails)
      ensures CheckResend(Lookup(old(users), email), now) != ResendGranted ==>
        users == old(users) && outbox == old(outbox)
      ensures CheckResend(Lookup(old(users), email), now) == ResendGranted ==>
        email.Some? && Reissued(old(users), users, email.value, now)
        && outbox == old(outbox) + (if mailFails then [] else [OtpMail(email.value, users[email.value].otp.value)])
      ensures nextId == old(nextId)
    {
      if email.None? || email.value !in users {
        return USER_NOT_FOUND;
      }
      var user := new User.FromRecord(users[email.value]);
      if user.verified {
        return NO_OTP_NEEDED;
      }
      if user.otpRequestedTime.Some? && now < user.otpRequestedTime.value + OTP_RESEND_COOLDOWN_SECONDS {
        return OTP_COOLDOWN;
      }
      Reissue(email.value, now, mailFails);
      if mailFails {
        return OTP_SEND_FAILED;
      }
      return OTP_RESENT;
    }

    method SendResetOtp(email: Option<string>, now: Instant, mailFails: bool) returns (msg: string)
      requires Valid()
      modifies this
      ensures Valid()
      ensures msg == ResetRequestMessage(CheckResetRequest(email, old(users), now), !mailFails)
      ensures CheckResetRequest(email, old(users), now) != RequestGranted ==>
        users == old(users) && outbox == old(outbox)
      ensures CheckResetRequest(email, old(users), now) == RequestGranted ==>
        email.Some? && Reissued(old(users), users, email.value, now)
        && outbox == old(outbox) + (if mailFails then [] else [OtpMail(email.value, users[email.value].otp.value)])
      ensures nextId == old(nextId)
    {
      if email.None? || IsBlank(email.value) {
        return EMAIL_REQUIRED;
      }
      if !IsValidEmail(email.value) {
        return INVALID_EMAIL;
      }
      if email.value !in users {
        return NO_ACCOUNT;
      }
      var user := new User.FromRecord(users[email.value]);
      if user.otpRequestedTime.Some? && now < user.otpRequestedTime.value + OTP_RESEND_COOLDOWN_SECONDS {
        return OTP_COOLDOWN;
      }
      Reissue(email.value, now, mailFails);
      if mailFails {
        return OTP_SEND_FAILED;
      }
      return RESET_OTP_SENT;
    }

    method VerifyResetOtp(email: Option<string>, otp: Option<string>, session: Session, now: Instant)
      returns (msg: string)
      requires Valid()
      modifies this, session
      ensures Valid()
      ensures msg == VerifyResetMessage(CheckVerifyReset(email, otp, Lookup(old(users), email), now))
      ensures CheckVerifyReset(email, otp, Lookup(old(users), email), now).ResetJudged? ==>
        email.Some? && email.value in old(users)
        && users == old(users)[email.value := AfterAttempt(old(users)[email.value],
                                 CheckVerifyReset(email, otp, Lookup(old(users), email), now).verdict)]
      ensures !CheckVerifyReset(email, otp, Lookup(old(users), email), now).ResetJudged? ==> users == old(users)
      ensures session.attributes ==
        if CheckVerifyReset(email, otp, Lookup(old(users), email), now) == ResetJudged(Match)
        then old(session.attributes)[RESET_OTP_VERIFIED := Text(email.value)]
        else old(session.attributes)
      ensures outbox == old(outbox) && nextId == old(nextId)
    {
      if email.None? || IsBlank(email.value) {
        return EMAIL_REQUIRED;
      }
      if otp.None? || IsBlank(otp.value) {
        return OTP_REQUIRED;
      }
      if !IsSixDigits(otp.value) {
        return INVALID_OTP_FORMAT;
      }
      if email.value !in users {
        return USER_NOT_FOUND;
      }
      var v := Attempt(email.value, otp.value, now, false);
      if v == Match {
        session.attributes := session.attributes[RESET_OTP_VERIFIED := Text(email.value)];
      }
      return VerifyResetMessage(ResetJudged(v));
    }

    method ResetPassword(email: Option<string>, password: Option<string>, confirm: Option<string>,
                         session: Session) returns (msg: string)
      requires Valid()
      modifies this, session
      ensures Valid()
      ensures msg == ResetMessage(CheckReset(email, password, confirm, Marker(old(session.attributes)),
                                             Lookup(old(users), email), hash))
      ensures CheckReset(email, password, confirm, Marker(old(session.attributes)), Lookup(old(users), email), hash)
              != ResetAccepted ==>
                users == old(users) && session.attributes == old(session.attributes)
      ensures CheckReset(email, password, confirm, Marker(old(session.attributes)), Lookup(old(users), email), hash)
              == ResetAccepted ==>
                users == old(users)[email.value := PasswordChanged(old(users)[email.value], hash(password.value))]
                && session.attributes == old(session.attributes) - {RESET_OTP_VERIFIED}
      ensures outbox == old(outbox) && nextId == old(nextId)
    {
      var c := CheckReset(email, password, confirm, Marker(session.attributes), Lookup(users, email), hash);
      if c != ResetAccepted {
        return ResetMessage(c);
      }
      CommitReset(email.value, hash(password.value), session);
      return PASSWORD_RESET;
    }

    /** The successful end of `resetPassword`: the new hash is stored, the
        code cleared and the marker removed. */
    method CommitReset(key: string, newHash: string, session: Session)
      requires Valid() && key in users
      modifies this, session
      ensures Valid()
      ensures users == old(users)[key := PasswordChanged(old(users)[key], newHash)]
      ensures session.attributes == old(session.attributes) - {RESET_OTP_VERIFIED}
      ensures outbox == old(outbox) && nextId == old(nextId)
    {
      var user := new User.FromRecord(users[key]);
      user.password := Some(newHash);
      user.ClearOtp();
      Save(user);
      session.attributes := session.attributes - {RESET_OTP_VERIFIED};
    }

    /** `updateProfile` without an image: returns the exception it throws, or
        `None` when it returns normally. */
    method UpdateProfile(userId: int, name: Option<string>, email: Option<string>) returns (thrown: Option<Thrown>)
      requires Valid()
      modifies this
      ensures Valid()
      ensures var key := KeyOfId(old(users), userId);
        var u := if key.Some? then Some(old(users)[key.value]) else None;
        thrown == ProfileFailure(CheckProfile(u, name, email, old(users)))
        && (CheckProfile(u, name, email, old(users)) != ProfileAccepted ==> users == old(users))
        && (CheckProfile(u, name, email, old(users)) == ProfileAccepted ==>
              users == Reprofiled(old(users), key.value, Trim(name.value), NormalisedEmail(email.value)))
      ensures outbox == old(outbox) && nextId == old(nextId)
    {
      if !exists k :: k in users && users[k].id == Some(userId) {
        return Some(Thrown(RuntimeException, USER_NOT_FOUND));
      }
      var key :| key in users && users[key].id == Some(userId);
      ghost var k0 := KeyOfId(users, userId);
      assert k0 == Some(key);
      thrown := UpdateAccount(key, name, email);
    }

    /** `updateProfile` once the account under `key` is loaded. */
    method UpdateAccount(key: string, name: Option<string>, email: Option<string>) returns (thrown: Option<Thrown>)
      requires Valid() && key in users
      modifies this
      ensures Valid()
      ensures thrown == ProfileFailure(CheckProfile(Some(old(users)[key]), name, email, old(users)))
      ensures CheckProfile(Some(old(users)[key]), name, email, old(users)) != ProfileAccepted ==>
                users == old(users)
      ensures CheckProfile(Some(old(users)[key]), name, email, old(users)) == ProfileAccepted ==>
                users == Reprofiled(old(users), key, Trim(name.value), NormalisedEmail(email.value))
      ensures outbox == old(outbox) && nextId == old(nextId)
    {
      var c := CheckName(name);
      if c != ProfileAccepted {
        return ProfileFailure(c);
      }
      thrown := UpdateAddress(key, Trim(name.value), email);
    }

    /** The address half of `updateProfile`, once the name passed. */
    method UpdateAddress(key: string, name: string, email: Option<string>) returns (thrown: Option<Thrown>)
      requires Valid() && key in users && name != []
      modifies this
      ensures Valid()
      ensures thrown == ProfileFailure(CheckAddress(old(users)[key].id, email, old(users)))
      ensures CheckAddress(old(users)[key].id, email, old(users)) != ProfileAccepted ==> users == old(users)
      ensures CheckAddress(old(users)[key].id, email, old(users)) == ProfileAccepted ==>
                users == Reprofiled(old(users), key, name, NormalisedEmail(email.value))
      ensures outbox == old(outbox) && nextId == old(nextId)
    {
      var c := CheckAddress(users[key].id, email, users);
      if c != ProfileAccepted {
        return ProfileFailure(c);
      }
      CommitProfile(key, name, NormalisedEmail(email.value));
      return None;
    }

    /** The successful end of `updateProfile`: the loaded account gets its
        new name and address, loses `verified` when the address changed,
        and is saved under the new address. */
    method CommitProfile(key: string, name: string, address: string)
      requires Valid() && key in users && name != []
      requires address in users ==> users[address].id == users[key].id
      modifies this
      ensures Valid()
      ensures users == Reprofiled(old(users), key, name, address)
      ensures outbox == old(outbox) && nextId == old(nextId)
    {
      var user := new User.FromRecord(users[key]);
      var emailChanged := !EqualsIgnoreCase(address, user.email.value);
      user.name := Some(name);
      user.email := Some(address);
      if emailChanged {
        user.verified := false;
      }
      RekeyKeepsTable(users, nextId, key, address, user.Rec());
      users := (users - {key})[address := user.Rec()];
    }
  }
}
