/** The `User` entity: field domains and defaults, the email normalisation
    hook that runs before every insert and update, and the full name. */
module Users {
  import opened Common
  import opened Text

  datatype UserStatus = Pending | Active | Suspended | Locked

  /** The role names compared against by the services (the role table's enum
      lacks `CANDIDATE`, which the services nevertheless use). */
  datatype RoleType = HrAdmin | DeptChief | SuperAdmin | Recruiter | Candidate

  /** The role's name as stored in the `roles` table and carried in tokens. */
  function RoleName(r: RoleType): string
  {
    match r
    case HrAdmin => "HR_ADMIN"
    case DeptChief => "DEPT_CHIEF"
    case SuperAdmin => "SUPER_ADMIN"
    case Recruiter => "RECRUITER"
    case Candidate => "CANDIDATE"
  }

  /** Consecutive wrong passwords that lock an account. */
  const MaxFailedAttempts: nat := 5

  /** What normalisation leaves: lower case, no white space at either end. */
  predicate IsNormalized(e: string)
  {
    ToLower(e) == e && (|e| > 0 ==> !IsTrimmable(e[0]) && !IsTrimmable(e[|e| - 1]))
  }

  /** `email?.toLowerCase().trim()`. */
  function NormalizeEmail(email: string): (r: string)
    ensures IsNormalized(r)
    ensures exists i :: OccursAt(ToLower(email), r, i)
  {
    ToLowerIdempotent(email);
    TrimKeepsLowerCase(ToLower(email));
    Trim(ToLower(email))
  }

  lemma TrimKeepsLowerCase(s: string)
    requires ToLower(s) == s
    ensures ToLower(Trim(s)) == Trim(s)
  {
    var i :| OccursAt(s, Trim(s), i);
    ToLowerFixesSlices(s, i, i + |Trim(s)|);
  }

  /** An email is stored normalised; normalising it again changes nothing,
      so the update hook leaves stored emails as they are. */
  lemma NormalizeEmailIdempotent(email: string)
    ensures NormalizeEmail(NormalizeEmail(email)) == NormalizeEmail(email)
  {
    NormalizedIsFixed(NormalizeEmail(email));
  }

  /** Normalised emails are exactly the fixed points of normalisation. */
  lemma NormalizedIsFixed(e: string)
    ensures IsNormalized(e) <==> NormalizeEmail(e) == e
  {
    if IsNormalized(e) {
      TrimStartFixed(e);
      TrimEndFixed(e);
    }
  }

  /** The stored, mutable user row. `passwordHistory` stands for the nullable
      `simple-array` column, null and empty meaning the same to the services. */
  class User {
    const id: string
    var email: string
    var firstName: string
    var lastName: string
    var password: string
    var role: RoleType
    var departmentId: Option<string>
    var status: UserStatus
    var phoneNumber: Option<string>
    var lastLogin: Option<Time>
    var failedLoginAttempts: nat
    var accountLockedUntil: Option<Time>
    var lockoutCount24h: nat
    var lastLockoutReset: Time
    var passwordChangedAt: Time
    var passwordHistory: seq<string>
    var mfaSecret: Option<string>
    var mfaEnabled: bool
    var createdAt: Time
    var updatedAt: Time
    var createdBy: Option<string>

    /** `repository.create` with the given columns; every other column takes
        its declared default, timestamps defaulting to the current time. */
    constructor (id: string, email: string, firstName: string, lastName: string, password: string,
                 role: RoleType, departmentId: Option<string>, now: Time)
      ensures this.id == id && this.email == email
      ensures this.firstName == firstName && this.lastName == lastName
      ensures this.password == password && this.role == role && this.departmentId == departmentId
      ensures status == Pending
      ensures failedLoginAttempts == 0 && lockoutCount24h == 0
      ensures accountLockedUntil == None && lastLogin == None && phoneNumber == None
      ensures passwordHistory == [] && mfaSecret == None && !mfaEnabled
      ensures lastLockoutReset == now && passwordChangedAt == now
      ensures createdAt == now && updatedAt == now
      ensures createdBy == None
    {
      this.id := id;
      this.email := email;
      this.firstName := firstName;
      this.lastName := lastName;
      this.password := password;
      this.role := role;
      this.departmentId := departmentId;
      status := Pending;
      phoneNumber := None;
      lastLogin := None;
      failedLoginAttempts := 0;
      accountLockedUntil := None;
      lockoutCount24h := 0;
      lastLockoutReset := now;
      passwordChangedAt := now;
      passwordHistory := [];
      mfaSecret := None;
      mfaEnabled := false;
      createdAt := now;
      updatedAt := now;
      createdBy := None;
    }

    /** The `@BeforeInsert`/`@BeforeUpdate` hook. */
    method NormalizeStoredEmail()
      modifies this
      ensures email == NormalizeEmail(old(email))
      ensures Security() == old(Security())
      ensures Details() == old(Details()).(email := email)
    {
      email := NormalizeEmail(email);
    }

    /** `getFullName`. */
    function FullName(): (r: string)
      reads this
      ensures |r| == |firstName| + 1 + |lastName|
      ensures r[..|firstName|] == firstName && r[|firstName|] == ' ' && r[|firstName| + 1..] == lastName
    {
      firstName + " " + lastName
    }

    /** The columns login and password changes leave alone. */
    function Details(): UserDetails
      reads this
    {
      UserDetails(email, firstName, lastName, role, departmentId, phoneNumber, lastLockoutReset,
                  mfaSecret, mfaEnabled, createdAt, updatedAt, createdBy)
    }

    /** The columns the lockout state machine and password changes work on. */
    function Security(): SecurityState
      reads this
    {
      SecurityState(status, failedLoginAttempts, accountLockedUntil, lockoutCount24h, lastLogin,
                    password, passwordHistory, passwordChangedAt)
    }

    /** The whole row, as a value. */
    function Row(): UserRow
      reads this
    {
      UserRow(id, Details(), Security())
    }
  }

  /** A stored user row as a value: the primary key, the columns login and
      password changes leave alone, and the security columns. */
  datatype UserRow = UserRow(id: string, details: UserDetails, security: SecurityState)
  {
    /** What every stored row keeps: a normalised email, a history of at most
        five hashes, and a lock time whenever the account is locked. */
    ghost predicate Valid()
    {
      IsNormalized(details.email) && security.Valid()
    }
  }

  /** A snapshot of a user's identity and bookkeeping columns. */
  datatype UserDetails = UserDetails(
    email: string,
    firstName: string,
    lastName: string,
    role: RoleType,
    departmentId: Option<string>,
    phoneNumber: Option<string>,
    lastLockoutReset: Time,
    mfaSecret: Option<string>,
    mfaEnabled: bool,
    createdAt: Time,
    updatedAt: Time,
    createdBy: Option<string>)

  /** A snapshot of a user's security columns. */
  datatype SecurityState = SecurityState(
    status: UserStatus,
    failedLoginAttempts: nat,
    accountLockedUntil: Option<Time>,
    lockoutCount24h: nat,
    lastLogin: Option<Time>,
    password: string,
    passwordHistory: seq<string>,
    passwordChangedAt: Time)
  {
    ghost predicate Valid()
    {
      |passwordHistory| <= 5
      && (status == Locked ==> accountLockedUntil.Some?)
    }
  }
}
