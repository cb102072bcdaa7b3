/** The account entity of `entity/User.java`: its fields and their defaults,
    the two constructors, the persist hook and `clearOtp`. */
module UserEntity {
  import opened Common

  /** The image `onCreate` assigns when none was given. */
  const DEFAULT_PROFILE_IMAGE: string := "/images/profile.png"

  /** One `User` row as a value. Times are instants in seconds. */
  datatype UserRecord = UserRecord(
    id: Option<int>,
    name: Option<string>,
    email: Option<string>,
    password: Option<string>,
    verified: bool,
    otp: Option<string>,
    otpExpiry: Option<Instant>,
    otpAttempts: int,
    otpRequestedTime: Option<Instant>,
    createdAt: Option<Instant>,
    profileImage: Option<string>)

  /** The state of `new User()`: every reference null, `verified = false`,
      `otpAttempts = 0`. */
  const EMPTY_USER: UserRecord :=
    UserRecord(None, None, None, None, false, None, None, 0, None, None, None)

  /** `clearOtp()` applied to a record. */
  function ClearedOtp(r: UserRecord): (c: UserRecord)
    ensures c.otp.None? && c.otpExpiry.None? && c.otpAttempts == 0 && c.otpRequestedTime.None?
    ensures c.id == r.id && c.name == r.name && c.email == r.email && c.password == r.password
    ensures c.verified == r.verified && c.createdAt == r.createdAt && c.profileImage == r.profileImage
  {
    r.(otp := None, otpExpiry := None, otpAttempts := 0, otpRequestedTime := None)
  }

  /** Clearing twice is clearing once. */
  lemma ClearOtpIdempotent(r: UserRecord)
    ensures ClearedOtp(ClearedOtp(r)) == ClearedOtp(r)
  {
  }

  /** `onCreate()` applied to a record: stamps `createdAt` and fills in the
      default image only when none is set. */
  function Created(r: UserRecord, now: Instant): (c: UserRecord)
    ensures c.createdAt == Some(now)
    ensures r.profileImage.None? ==> c.profileImage == Some(DEFAULT_PROFILE_IMAGE)
    ensures r.profileImage.Some? ==> c.profileImage == r.profileImage
    ensures c.(createdAt := r.createdAt, profileImage := r.profileImage) == r
  {
    r.(createdAt := Some(now),
       profileImage := if r.profileImage.None? then Some(DEFAULT_PROFILE_IMAGE) else r.profileImage)
  }

  /** The mutable entity. Services load one from its row, change it and save
      its `Rec()` back, as JPA does with a managed entity. */
  class User {
    var id: Option<int>
    var name: Option<string>
    var email: Option<string>
    var password: Option<string>
    var verified: bool
    var otp: Option<string>
    var otpExpiry: Option<Instant>
    var otpAttempts: int
    var otpRequestedTime: Option<Instant>
    var createdAt: Option<Instant>
    var profileImage: Option<string>

    /** The current field values as a row. */
    function Rec(): UserRecord
      reads this
    {
      UserRecord(id, name, email, password, verified, otp, otpExpiry, otpAttempts,
                 otpRequestedTime, createdAt, profileImage)
    }

    /** `new User()`. */
    constructor ()
      ensures Rec() == EMPTY_USER
      ensures !verified && otpAttempts == 0
    {
      id, name, email, password := None, None, None, None;
      verified := false;
      otp, otpExpiry, otpAttempts, otpRequestedTime := None, None, 0, None;
      createdAt, profileImage := None, None;
    }

    /** The seven-argument constructor: `otpAttempts = 0`, no request time and
        no expiry, whatever `otp` is given. */
    constructor Full(id: Option<int>, name: Option<string>, email: Option<string>,
                     password: Option<string>, verified: bool, otp: Option<string>,
                     createdAt: Option<Instant>)
      ensures Rec() == UserRecord(id, name, email, password, verified, otp, None, 0, None, createdAt, None)
    {
      this.id, this.name, this.email, this.password := id, name, email, password;
      this.verified := verified;
      this.otp := otp;
      this.createdAt := createdAt;
      this.otpAttempts := 0;
      this.otpRequestedTime := None;
      this.otpExpiry := None;
      this.profileImage := None;
    }

    /** An entity loaded from a stored row. */
    constructor FromRecord(r: UserRecord)
      ensures Rec() == r
    {
      id, name, email, password := r.id, r.name, r.email, r.password;
      verified := r.verified;
      otp, otpExpiry, otpAttempts, otpRequestedTime := r.otp, r.otpExpiry, r.otpAttempts, r.otpRequestedTime;
      createdAt, profileImage := r.createdAt, r.profileImage;
    }

    /** The `@PrePersist` hook, run when a new row is inserted. */
    method OnCreate(now: Instant)
      modifies this
      ensures Rec() == Created(old(Rec()), now)
    {
      createdAt := Some(now);
      if profileImage.None? {
        profileImage := Some(DEFAULT_PROFILE_IMAGE);
      }
    }

    /** `clearOtp()`: resets the four OTP fields and nothing else. */
    method ClearOtp()
      modifies this
      ensures otp.None? && otpExpiry.None? && otpAttempts == 0 && otpRequestedTime.None?
      ensures Rec() == ClearedOtp(old(Rec()))
    {
      otp := None;
      otpExpiry := None;
      otpAttempts := 0;
      otpRequestedTime := None;
    }
  }
}
