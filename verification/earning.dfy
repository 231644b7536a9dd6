/** The earning session and role expiry of a user: start, accrue, claim,
    change role, and revert an expired role. Time is passed in as `now` (ms). */
module Earning {
  import opened Wrappers
  import opened Accounts
  import opened Clock

  /** The most a plain `User` can collect from one session. */
  const UserCap: int := 3600

  /** `canStartEarning`: any role may start a session when none is running. */
  predicate CanStartEarning(a: Account): (b: bool)
    ensures b <==> !a.isEarning
  {
    !a.isEarning
  }

  /** `startEarning`: open a session at `now`; reports whether it did. */
  function StartEarning(a: Account, now: int): (r: (bool, Account))
    ensures r.0 <==> CanStartEarning(a)
    ensures r.0 ==> r.1 == a.(isEarning := true, lastStartTime := Some(now))
    ensures !r.0 ==> r.1 == a
  {
    if !a.isEarning then (true, a.(isEarning := true, lastStartTime := Some(now)))
    else (false, a)
  }

  /** `stopEarning`: close a running session (the start time is kept). */
  function StopEarning(a: Account): (r: (bool, Account))
    ensures r.0 <==> a.isEarning
    ensures !r.1.isEarning
    ensures r.1 == a.(isEarning := false)
  {
    if a.isEarning then (true, a.(isEarning := false)) else (false, a)
  }

  /** `calculateEarnings`: 10800 points per hour of session time, that is
      3 points per second, floored, times the role's multiplier; a plain
      User is capped at 3600 and roles outside the five tiers earn nothing. */
  function CalculateEarnings(a: Account, now: int): (e: int)
    ensures !a.isEarning || a.lastStartTime.None? ==> e == 0
    ensures a.lastStartTime.Some? && a.lastStartTime.value <= now ==> e >= 0
    ensures a.role == User ==> e <= UserCap
    ensures a.role.Promoter? || a.role.Influencer? || a.role.Ambassador? ==> e == 0
  {
    if a.lastStartTime.None? || !a.isEarning then 0
    else
      var elapsed := now - a.lastStartTime.value;
      match a.role
      case MonthlyBooster => 3 * elapsed / 1000
      case LifeTimeBooster => 3 * elapsed / 1000
      case Monthly3xBooster => 9 * elapsed / 1000
      case LifeTime6xBooster => 18 * elapsed / 1000
      case User => if 3 * elapsed / 1000 < UserCap then 3 * elapsed / 1000 else UserCap
      case _ => 0
  }

  /** The multiplier each role applies to the hourly rate. */
  function Multiplier(r: Role): int
  {
    match r
    case User => 1
    case MonthlyBooster => 1
    case LifeTimeBooster => 1
    case Monthly3xBooster => 3
    case LifeTime6xBooster => 6
    case _ => 0
  }

  /** The source's formula over the rationals: 10800 × elapsed hours × multiplier. */
  function ExactEarnings(r: Role, elapsedMs: int): real
  {
    10800.0 * (elapsedMs as real / 3600000.0) * Multiplier(r) as real
  }

  lemma FloorOfThousandths(n: int)
    ensures (n as real / 1000.0).Floor == n / 1000
  {
    var q, m := n / 1000, n % 1000;
    assert n == 1000 * q + m;
    assert n as real / 1000.0 == q as real + m as real / 1000.0;
  }

  /** The integer accrual is exactly the floor of the rational formula, with
      the User cap applied after flooring. */
  lemma EarningsFloorExactRate(a: Account, now: int)
    requires a.isEarning && a.lastStartTime.Some?
    ensures var exact := ExactEarnings(a.role, now - a.lastStartTime.value).Floor;
            CalculateEarnings(a, now) == if a.role == User && exact > UserCap then UserCap else exact
  {
    var e := now - a.lastStartTime.value;
    var m := Multiplier(a.role);
    assert ExactEarnings(a.role, e) == (3 * m * e) as real / 1000.0;
    FloorOfThousandths(3 * m * e);
  }

  lemma DivThousandMonotonic(x: int, y: int)
    requires x <= y
    ensures x / 1000 <= y / 1000
  {
  }

  /** Within one session, waiting longer never lowers the accrual. */
  lemma EarningsMonotonic(a: Account, t1: int, t2: int)
    requires t1 <= t2
    ensures CalculateEarnings(a, t1) <= CalculateEarnings(a, t2)
  {
    if a.isEarning && a.lastStartTime.Some? {
      var e1, e2 := t1 - a.lastStartTime.value, t2 - a.lastStartTime.value;
      DivThousandMonotonic(3 * e1, 3 * e2);
      DivThousandMonotonic(9 * e1, 9 * e2);
      DivThousandMonotonic(18 * e1, 18 * e2);
    }
  }

  /** A plain User's session is worth its cap after 20 minutes (1 200 000 ms). */
  lemma UserCapReachedAfterTwentyMinutes(a: Account, now: int)
    requires a.role == User && a.isEarning && a.lastStartTime.Some?
    ensures CalculateEarnings(a, now) == UserCap <==> now - a.lastStartTime.value >= 1200000
  {
  }

  /** `claim`: collect the accrual and end the session; 0 means nothing was
      collected and the record is untouched. */
  function Claim(a: Account, now: int): (r: (int, Account))
    ensures r.0 >= 0
    ensures r.0 > 0 <==> CalculateEarnings(a, now) > 0
    ensures r.0 > 0 ==> r.0 == CalculateEarnings(a, now)
    ensures r.0 > 0 ==> r.1 == AddEarnings(a, r.0).(lastClaimTime := Some(now), isEarning := false, lastStartTime := None)
    ensures r.0 == 0 ==> r.1 == a
  {
    var earnings := CalculateEarnings(a, now);
    if earnings > 0 then
      (earnings, StopEarning(AddEarnings(a, earnings).(lastClaimTime := Some(now))).1.(lastStartTime := None))
    else (0, a)
  }

  /** A successful claim ends the session: a later claim collects nothing. */
  lemma ClaimEndsSession(a: Account, now: int, later: int)
    requires Claim(a, now).0 > 0
    ensures Claim(Claim(a, now).1, later) == (0, Claim(a, now).1)
  {
  }

  /** Starting and claiming at the same instant collects nothing and leaves
      the session running. */
  lemma StartThenClaimAtOnceCollectsNothing(a: Account, now: int)
    requires CanStartEarning(a)
    ensures var started := StartEarning(a, now).1;
            Claim(started, now) == (0, started) && started.isEarning
  {
  }

  /** Stopping always makes room for a new session, and a started session
      blocks another start until it is stopped. */
  lemma StopThenStart(a: Account, now: int)
    ensures CanStartEarning(StopEarning(a).1)
    ensures StartEarning(StopEarning(a).1, now).0
    ensures !CanStartEarning(StartEarning(a, now).1)
    ensures StopEarning(StartEarning(a, now).1).0
  {
  }

  /** A duration, when given, is truthy iff it is not zero. */
  predicate Truthy(durationInDays: Option<int>)
  {
    durationInDays.Some? && durationInDays.value != 0
  }

  /** `setRole`: a truthy duration sets the expiry `d` days from now; without
      one, a LifeTime role clears the expiry and any other keeps the old one. */
  function SetRole(a: Account, role: Role, durationInDays: Option<int>, now: int): (r: Account)
    ensures r.role == role
    ensures Truthy(durationInDays) ==> r.roleExpiryDate == Some(now + durationInDays.value * 86400000)
    ensures !Truthy(durationInDays) && IsLifeTime(role) ==> r.roleExpiryDate.None?
    ensures !Truthy(durationInDays) && !IsLifeTime(role) ==> r.roleExpiryDate == a.roleExpiryDate
    ensures r == a.(role := role, roleExpiryDate := r.roleExpiryDate)
  {
    if Truthy(durationInDays) then
      a.(role := role, roleExpiryDate := Some(now + durationInDays.value * MsPerDay))
    else if IsLifeTime(role) then
      a.(role := role, roleExpiryDate := None)
    else
      a.(role := role)
  }

  /** The expiry is set and has been reached. */
  predicate Expired(a: Account, now: int)
  {
    a.roleExpiryDate.Some? && a.roleExpiryDate.value <= now
  }

  /** `checkAndUpdateRole`: an expired role reverts to User, the expiry is
      cleared and the session is stopped; otherwise nothing changes. */
  function CheckAndUpdateRole(a: Account, now: int): (r: Account)
    ensures Expired(a, now) ==> r == a.(role := User, roleExpiryDate := None, isEarning := false)
    ensures !Expired(a, now) ==> r == a
    ensures !Expired(r, now)
  {
    if Expired(a, now) then StopEarning(a.(role := User, roleExpiryDate := None)).1
    else a
  }

  /** Checking twice is checking once. */
  lemma CheckAndUpdateRoleIdempotent(a: Account, now: int)
    ensures CheckAndUpdateRole(CheckAndUpdateRole(a, now), now) == CheckAndUpdateRole(a, now)
  {
  }

  /** An expired role forfeits the running session: nothing is left to claim. */
  lemma ExpiryForfeitsSession(a: Account, now: int, later: int)
    requires Expired(a, now)
    ensures CalculateEarnings(CheckAndUpdateRole(a, now), later) == 0
    ensures Claim(CheckAndUpdateRole(a, now), later).0 == 0
  {
  }

  /** A role granted for `d > 0` days survives every check before
      `now + d` days and is reverted by the first check at or after it. */
  lemma TimedRoleExpiresOnSchedule(a: Account, role: Role, d: int, now: int, t: int)
    requires d > 0
    ensures var r := CheckAndUpdateRole(SetRole(a, role, Some(d), now), t);
            (t < now + d * MsPerDay ==> r.role == role) && (t >= now + d * MsPerDay ==> r.role == User && r.roleExpiryDate.None?)
  {
  }

  /** A LifeTime role granted without a duration never expires. */
  lemma LifeTimeRoleNeverExpires(a: Account, role: Role, now: int, t: int)
    requires IsLifeTime(role)
    ensures CheckAndUpdateRole(SetRole(a, role, None, now), t).role == role
  {
  }
}
