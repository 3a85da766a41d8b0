/** System users and the account-lockout guard (entity/User.java,
    enums/UserRole.java). */
module Users {
  import opened Base

  /** UserRole. */
  datatype Role = Admin | Manager | SalesRep | Support | RegularUser

  /** Enum.name() of a role. */
  function RoleName(r: Role): (name: string)
    ensures name != []
  {
    match r
    case Admin => "ADMIN"
    case Manager => "MANAGER"
    case SalesRep => "SALES_REP"
    case Support => "SUPPORT"
    case RegularUser => "USER"
  }

  /** UserStatus: the code only ever tests for ACTIVE; the enum's other
      constants are kept by name. */
  datatype UserStatus = Active | OtherUserStatus(name: string)

  /** Failures from which on every failed login (re)arms the lock. */
  const MaxFailedAttempts: int := 5

  /** How long a lock lasts, in minutes. */
  const LockMinutes: int := 30

  /** The lock-until value after one more failure: the lock is armed (again)
      for thirty minutes from now whenever the new count reaches five. */
  function LockAfterFailure(newCount: Int32, lockedUntil: Option<DateTime>, now: DateTime): (r: Option<DateTime>)
    ensures newCount < MaxFailedAttempts ==> r == lockedUntil
    ensures newCount >= MaxFailedAttempts ==> r == Some(now + LockMinutes)
  {
    if newCount >= MaxFailedAttempts then Some(PlusMinutes(now, LockMinutes)) else lockedUntil
  }

  /** isAccountLocked: a lock holds only while its end lies strictly in the future. */
  predicate LockedAt(lockedUntil: Option<DateTime>, now: DateTime)
  {
    lockedUntil.Some? && lockedUntil.value > now
  }

  /** The counter and lock after a run of failed logins at the given moments,
      with no successful login in between. */
  function AfterFailures(count: Int32, lockedUntil: Option<DateTime>, times: seq<DateTime>): (Int32, Option<DateTime>)
  {
    if times == [] then (count, lockedUntil)
    else
      var (c, l) := AfterFailures(count, lockedUntil, times[..|times| - 1]);
      var c' := Increment(c);
      (c', LockAfterFailure(c', l, times[|times| - 1]))
  }

  /** From a fresh account, k failures leave the counter at k; the lock is set
      exactly when k reaches five, and then ends thirty minutes after the last
      failure, so the account is locked right after it and free again from
      then on without any unlock. */
  lemma {:induction false} FailuresFromFresh(times: seq<DateTime>)
    requires |times| <= Int32Max
    ensures AfterFailures(0, None, times).0 == |times|
    ensures AfterFailures(0, None, times).1.Some? <==> |times| >= MaxFailedAttempts
    ensures |times| >= MaxFailedAttempts ==>
              AfterFailures(0, None, times).1 == Some(times[|times| - 1] + LockMinutes)
    ensures |times| >= MaxFailedAttempts ==>
              LockedAt(AfterFailures(0, None, times).1, times[|times| - 1])
    ensures times != [] ==>
              forall t :: t >= times[|times| - 1] + LockMinutes ==> !LockedAt(AfterFailures(0, None, times).1, t)
  {
    if times != [] {
      FailuresFromFresh(times[..|times| - 1]);
    }
  }

  class User {
    var firstName: string
    var lastName: string
    var email: string
    /** The stored password hash, opaque to the model. */
    var password: string
    var role: Role
    var status: UserStatus
    var lastLoginAt: Option<DateTime>
    var lastLoginIp: Option<string>
    var failedLoginAttempts: Int32
    var accountLockedUntil: Option<DateTime>
    /** The codes of the permissions granted to the user (codes are unique). */
    var permissions: set<string>

    /** A new user with the builder's defaults: ACTIVE, no failures, no lock. */
    constructor (firstName: string, lastName: string, email: string, password: string, role: Role)
      ensures this.firstName == firstName && this.lastName == lastName
      ensures this.email == email && this.password == password && this.role == role
      ensures status == Active && failedLoginAttempts == 0 && accountLockedUntil == None
      ensures lastLoginAt == None && lastLoginIp == None && permissions == {}
    {
      this.firstName := firstName;
      this.lastName := lastName;
      this.email := email;
      this.password := password;
      this.role := role;
      status := Active;
      lastLoginAt := None;
      lastLoginIp := None;
      failedLoginAttempts := 0;
      accountLockedUntil := None;
      permissions := {};
    }

    /** getFullName. */
    function FullName(): (r: string)
      reads this
      ensures |r| == |firstName| + 1 + |lastName|
      ensures r[..|firstName|] == firstName && r[|firstName|] == ' ' && r[|firstName| + 1..] == lastName
    {
      firstName + " " + lastName
    }

    /** isAccountLocked: the lock-until moment is set and still ahead of now. */
    predicate IsAccountLocked(now: DateTime)
      reads this
      ensures IsAccountLocked(now) <==> LockedAt(accountLockedUntil, now)
    {
      LockedAt(accountLockedUntil, now)
    }

    /** isActive: ACTIVE status and not locked at this moment. */
    predicate IsActive(now: DateTime)
      reads this
      ensures IsActive(now) ==> status == Active && !IsAccountLocked(now)
      ensures status == Active && !IsAccountLocked(now) ==> IsActive(now)
    {
      status == Active && !IsAccountLocked(now)
    }

    /** A lock only lapses with time: an account not locked at t is not locked
        at any later moment either. */
    lemma UnlockedStaysUnlocked(t: DateTime, t': DateTime)
      requires !IsAccountLocked(t) && t <= t'
      ensures !IsAccountLocked(t')
    {
    }

    /** recordSuccessfulLogin: stamp the login and clear the counter and the lock. */
    method RecordSuccessfulLogin(ipAddress: string, now: DateTime)
      modifies this`lastLoginAt, this`lastLoginIp, this`failedLoginAttempts, this`accountLockedUntil
      ensures lastLoginAt == Some(now) && lastLoginIp == Some(ipAddress)
      ensures failedLoginAttempts == 0 && accountLockedUntil == None
      ensures forall t :: !IsAccountLocked(t)
      ensures IsActive(now) <==> status == Active
    {
      lastLoginAt := Some(now);
      lastLoginIp := Some(ipAddress);
      failedLoginAttempts := 0;
      accountLockedUntil := None;
    }

    /** recordFailedLogin: count the failure; from the fifth on, lock for thirty minutes. */
    method RecordFailedLogin(now: DateTime)
      modifies this`failedLoginAttempts, this`accountLockedUntil
      ensures failedLoginAttempts == Increment(old(failedLoginAttempts))
      ensures old(failedLoginAttempts) < Int32Max ==> failedLoginAttempts == old(failedLoginAttempts) + 1
      ensures accountLockedUntil == LockAfterFailure(failedLoginAttempts, old(accountLockedUntil), now)
      ensures (failedLoginAttempts, accountLockedUntil)
              == AfterFailures(old(failedLoginAttempts), old(accountLockedUntil), [now])
      ensures failedLoginAttempts >= MaxFailedAttempts ==> IsAccountLocked(now)
    {
      failedLoginAttempts := Increment(failedLoginAttempts);
      if failedLoginAttempts >= MaxFailedAttempts {
        accountLockedUntil := Some(PlusMinutes(now, LockMinutes));
      }
    }
  }
}
