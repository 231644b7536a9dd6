/** The daily claim streak. A record per user keeps the streak, the last
    claim date and the referrals received today; dates are day indices
    (local midnights), so "yesterday" is `today - 1`. */
module DailyPoints {
  import opened Wrappers
  import opened Accounts

  const DailyStep: int := 1000
  const DailyCap: int := 30000
  const MaxStreakDays: int := 30

  /** A DailyPoint document. */
  datatype DailyPoint = DailyPoint(
    currentStreak: nat,
    lastClaimDate: Option<int>,
    nextClaimAmount: int,
    dailyReferrals: nat,
    lastReferralReset: int)

  /** A record as first created on `createdDay`: no claim yet, and the
      referral window stamped with the creation time. */
  function Fresh(createdDay: int): (d: DailyPoint)
    ensures d.currentStreak == 0 && d.nextClaimAmount == 1000
    ensures d.lastClaimDate.None? && d.dailyReferrals == 0 && d.lastReferralReset == createdDay
  {
    DailyPoint(0, None, 1000, 0, createdDay)
  }

  /** `Math.min(streak × 1000, 30000)`. */
  function StreakAmount(streak: int): (r: int)
    ensures r <= DailyCap
    ensures streak * DailyStep <= DailyCap ==> r == streak * DailyStep
    ensures streak * DailyStep > DailyCap ==> r == DailyCap
  {
    if streak * DailyStep < DailyCap then streak * DailyStep else DailyCap
  }

  /** The streak is lost: never claimed, or the last claim is older than yesterday. */
  predicate StreakBroken(d: DailyPoint, today: int)
  {
    d.lastClaimDate.None? || d.lastClaimDate.value < today - 1
  }

  /** More than two referrals today double the claim. */
  predicate BonusEligible(d: DailyPoint)
  {
    d.dailyReferrals > 2
  }

  datatype DailyError = AlreadyClaimedToday

  /** What a successful claim leaves behind. */
  datatype DailyClaim = DailyClaim(record: DailyPoint, account: Account, claimedAmount: int, bonusApplied: bool)

  /** The streak a successful claim today ends with. */
  function StreakAfterClaim(d: DailyPoint, today: int): nat
  {
    (if StreakBroken(d, today) then 0 else d.currentStreak) + 1
  }

  /** The routed `claimDailyPoints`: reject a second claim today; otherwise
      reset a broken streak, extend it by one, pay `min(streak × 1000, 30000)`
      (doubled with the referral bonus) into balance and lifetime total, and
      start a new referral window. A missing record is created on the spot. */
  function ClaimDailyPoints(stored: Option<DailyPoint>, a: Account, today: int): (r: Result<DailyClaim, DailyError>)
    ensures var d := stored.GetOr(Fresh(today));
            r.Err? <==> d.lastClaimDate == Some(today)
    ensures r.Ok? ==>
              var d := stored.GetOr(Fresh(today));
              var c := r.value;
              && c.record.currentStreak >= 1
              && c.record.currentStreak == StreakAfterClaim(d, today)
              && (StreakBroken(d, today) || d.currentStreak == 0 <==> c.record.currentStreak == 1)
              && c.bonusApplied == BonusEligible(d)
              && c.claimedAmount == StreakAmount(c.record.currentStreak) * (if c.bonusApplied then 2 else 1)
              && 1000 <= c.claimedAmount <= 60000
              && c.account == AddEarnings(a, c.claimedAmount)
              && c.record.lastClaimDate == Some(today)
              && c.record.dailyReferrals == 0
              && c.record.lastReferralReset == today
              && c.record.nextClaimAmount == StreakAmount(c.record.currentStreak + 1)
  {
    var d := stored.GetOr(Fresh(today));
    if d.lastClaimDate == Some(today) then Err(AlreadyClaimedToday)
    else
      var streak := (if StreakBroken(d, today) then 0 else d.currentStreak) + 1;
      var multiplier := if d.dailyReferrals > 2 then 2 else 1;
      var claimed := StreakAmount(streak) * multiplier;
      Ok(DailyClaim(
        DailyPoint(streak, Some(today), StreakAmount(streak + 1), 0, today),
        AddEarnings(a, claimed),
        claimed,
        multiplier > 1))
  }

  /** The unrouted variant in the user controller: a broken streak also
      resets the stored amount to 1000; the claim pays the STORED
      `nextClaimAmount` and only then recomputes it from the new streak. */
  function LegacyClaimDailyPoints(stored: Option<DailyPoint>, a: Account, today: int): (r: Result<DailyClaim, DailyError>)
    ensures var d := stored.GetOr(Fresh(today));
            r.Err? <==> d.lastClaimDate == Some(today)
    ensures r.Ok? ==>
              var d := stored.GetOr(Fresh(today));
              var c := r.value;
              && c.record.currentStreak == StreakAfterClaim(d, today)
              && c.claimedAmount == (if StreakBroken(d, today) then 1000 else d.nextClaimAmount) * (if BonusEligible(d) then 2 else 1)
              && c.bonusApplied == BonusEligible(d)
              && c.account == AddEarnings(a, c.claimedAmount)
              && c.record.lastClaimDate == Some(today)
              && c.record.dailyReferrals == 0
              && c.record.lastReferralReset == today
              && c.record.nextClaimAmount == StreakAmount(c.record.currentStreak)
  {
    var d0 := stored.GetOr(Fresh(today));
    if d0.lastClaimDate == Some(today) then Err(AlreadyClaimedToday)
    else
      var d := if StreakBroken(d0, today) then d0.(currentStreak := 0, nextClaimAmount := 1000) else d0;
      var multiplier := if d.dailyReferrals > 2 then 2 else 1;
      var claimed := d.nextClaimAmount * multiplier;
      var streak := d.currentStreak + 1;
      Ok(DailyClaim(
        DailyPoint(streak, Some(today), StreakAmount(streak), 0, today),
        AddEarnings(a, claimed),
        claimed,
        multiplier > 1))
  }

  /** The figures `getDailyPointStatus` reports. */
  datatype DailyStatus = DailyStatus(
    currentStreak: nat,
    nextClaimAmount: int,
    lastClaimDate: Option<int>,
    canClaimToday: bool,
    dailyReferrals: nat,
    bonusEligible: bool,
    daysUntilMaxStreak: int)

  /** `getDailyPointStatus`: creates the record when missing, and previews
      `min((streak + 1) × 1000, 30000)` whether or not the streak is broken. */
  function GetDailyPointStatus(stored: Option<DailyPoint>, today: int): (r: (DailyPoint, DailyStatus))
    ensures r.0 == stored.GetOr(Fresh(today))
    ensures r.1.currentStreak == r.0.currentStreak && r.1.lastClaimDate == r.0.lastClaimDate
    ensures r.1.dailyReferrals == r.0.dailyReferrals
    ensures r.1.canClaimToday <==> r.0.lastClaimDate.None? || r.0.lastClaimDate.value < today
    ensures r.1.bonusEligible <==> BonusEligible(r.0)
    ensures r.1.nextClaimAmount == StreakAmount(r.0.currentStreak + 1)
    ensures 0 <= r.1.daysUntilMaxStreak <= MaxStreakDays
    ensures r.1.daysUntilMaxStreak == 0 <==> r.0.currentStreak >= MaxStreakDays
    ensures r.1.daysUntilMaxStreak > 0 ==> r.1.daysUntilMaxStreak + r.0.currentStreak == MaxStreakDays
  {
    var d := stored.GetOr(Fresh(today));
    var canClaim := d.lastClaimDate.None? || d.lastClaimDate.value < today;
    var preview := StreakAmount(d.currentStreak + 1);
    var untilMax := if MaxStreakDays - d.currentStreak > 0 then MaxStreakDays - d.currentStreak else 0;
    (d, DailyStatus(d.currentStreak, preview, d.lastClaimDate, canClaim, d.dailyReferrals, d.dailyReferrals > 2, untilMax))
  }

  /** `addReferral`: no record, no effect; a window opened before today is
      restarted at one referral, otherwise the count goes up by one. */
  function AddReferral(stored: Option<DailyPoint>, today: int): (r: Option<DailyPoint>)
    ensures r.None? <==> stored.None?
    ensures r.Some? && stored.value.lastReferralReset < today ==>
              r.value == stored.value.(dailyReferrals := 1, lastReferralReset := today)
    ensures r.Some? && stored.value.lastReferralReset >= today ==>
              r.value == stored.value.(dailyReferrals := stored.value.dailyReferrals + 1)
  {
    match stored
    case None => None
    case Some(d) =>
      if d.lastReferralReset < today then Some(d.(dailyReferrals := 1, lastReferralReset := today))
      else Some(d.(dailyReferrals := d.dailyReferrals + 1))
  }

  // ---------------------------------------------------------------------
  // Properties relating the operations
  // ---------------------------------------------------------------------

  /** Whenever the last claim is not dated in the future, the status
      reports `canClaimToday` exactly when a claim would be accepted. */
  lemma StatusAgreesWithClaim(stored: Option<DailyPoint>, a: Account, today: int)
    requires var d := stored.GetOr(Fresh(today)); d.lastClaimDate.None? || d.lastClaimDate.value <= today
    ensures GetDailyPointStatus(stored, today).1.canClaimToday <==> ClaimDailyPoints(stored, a, today).Ok?
  {
  }

  /** With a future-dated last claim the two disagree: the status forbids a
      claim that the claim handler accepts. */
  lemma FutureClaimDateDisagrees(d: DailyPoint, a: Account, today: int)
    requires d.lastClaimDate == Some(today + 1)
    ensures !GetDailyPointStatus(Some(d), today).1.canClaimToday
    ensures ClaimDailyPoints(Some(d), a, today).Ok?
  {
  }

  /** The status preview equals the amount (before bonus) the next claim pays
      exactly when the streak is intact or has not started. */
  lemma PreviewMatchesClaimIffStreakKept(d: DailyPoint, a: Account, today: int)
    requires d.lastClaimDate != Some(today)
    ensures var c := ClaimDailyPoints(Some(d), a, today).value;
            (GetDailyPointStatus(Some(d), today).1.nextClaimAmount == StreakAmount(c.record.currentStreak)
             <==> !StreakBroken(d, today) || d.currentStreak == 0)
  {
  }

  /** The amount a claim records for tomorrow is what tomorrow's claim pays,
      before any referral bonus earned in between. */
  lemma NextClaimAmountIsTomorrowsPayout(stored: Option<DailyPoint>, a: Account, today: int)
    requires ClaimDailyPoints(stored, a, today).Ok?
    ensures var c := ClaimDailyPoints(stored, a, today).value;
            var next := ClaimDailyPoints(Some(c.record), c.account, today + 1);
            next.Ok? && next.value.claimedAmount == c.record.nextClaimAmount
  {
  }

  /** A second claim on the same day is refused and changes nothing. */
  lemma SecondClaimSameDayRejected(stored: Option<DailyPoint>, a: Account, today: int)
    requires ClaimDailyPoints(stored, a, today).Ok?
    ensures var c := ClaimDailyPoints(stored, a, today).value;
            ClaimDailyPoints(Some(c.record), c.account, today) == Err(AlreadyClaimedToday)
  {
  }

  /** Claiming on the next day extends the streak; skipping any day
      restarts it at one. */
  lemma StreakSurvivesConsecutiveDaysOnly(d: DailyPoint, a: Account, last: int, today: int)
    requires d.lastClaimDate == Some(last) && last < today
    ensures var c := ClaimDailyPoints(Some(d), a, today).value;
            (today - last <= 1 ==> c.record.currentStreak == d.currentStreak + 1)
            && (today - last >= 2 ==> c.record.currentStreak == 1)
  {
  }

  /** A fresh record can be claimed on its creation day or any later day;
      the first claim starts the streak at one and pays 1000. */
  lemma FreshFirstClaim(created: int, a: Account, today: int)
    ensures var c := ClaimDailyPoints(Some(Fresh(created)), a, today);
            c.Ok? && c.value.record.currentStreak == 1 && c.value.claimedAmount == 1000
    ensures GetDailyPointStatus(Some(Fresh(created)), today).1.canClaimToday
  {
  }

  /** A referral on the creation day counts inside the creation window (the
      stamp is the creation time, not an earlier midnight). */
  lemma FreshReferralSameDay(created: int)
    ensures AddReferral(Some(Fresh(created)), created) == Some(Fresh(created).(dailyReferrals := 1))
  {
  }

  /** `n` referrals in a row on the same day. */
  function AddReferrals(stored: Option<DailyPoint>, today: int, n: nat): Option<DailyPoint>
    decreases n
  {
    if n == 0 then stored else AddReferrals(AddReferral(stored, today), today, n - 1)
  }

  /** After `n > 0` referrals today the count is `n`, plus whatever was
      already counted today. */
  lemma {:induction false} ReferralsCountWithinDay(d: DailyPoint, today: int, n: nat)
    requires n > 0
    ensures var r := AddReferrals(Some(d), today, n);
            r == Some(d.(dailyReferrals := (if d.lastReferralReset < today then 0 else d.dailyReferrals) + n,
                         lastReferralReset := if d.lastReferralReset < today then today else d.lastReferralReset))
    decreases n
  {
    var d1 := AddReferral(Some(d), today).value;
    if n > 1 {
      ReferralsCountWithinDay(d1, today, n - 1);
    }
  }

  /** Starting from a record whose window opened before today, the claim is
      doubled exactly when at least three referrals arrived today. */
  lemma {:induction false} ThreeReferralsDoubleTheClaim(d: DailyPoint, a: Account, today: int, n: nat)
    requires d.lastReferralReset < today && n > 0
    requires d.lastClaimDate != Some(today)
    ensures var r := AddReferrals(Some(d), today, n);
            var c := ClaimDailyPoints(r, a, today);
            c.Ok? && (c.value.bonusApplied <==> n >= 3)
  {
    ReferralsCountWithinDay(d, today, n);
  }

  // ---------------------------------------------------------------------
  // Streak runs: claims on consecutive days with no referrals in between
  // ---------------------------------------------------------------------

  /** Amounts paid by the routed handler over `n` consecutive days from `day`. */
  function RoutedRun(d: DailyPoint, a: Account, day: int, n: nat): seq<int>
    decreases n
  {
    if n == 0 then []
    else
      match ClaimDailyPoints(Some(d), a, day)
      case Err(_) => []
      case Ok(c) => [c.claimedAmount] + RoutedRun(c.record, c.account, day + 1, n - 1)
  }

  /** Amounts paid by the unrouted variant over `n` consecutive days from `day`. */
  function LegacyRun(d: DailyPoint, a: Account, day: int, n: nat): seq<int>
    decreases n
  {
    if n == 0 then []
    else
      match LegacyClaimDailyPoints(Some(d), a, day)
      case Err(_) => []
      case Ok(c) => [c.claimedAmount] + LegacyRun(c.record, c.account, day + 1, n - 1)
  }

  /** After a claim yesterday, the routed handler pays one step more each day. */
  lemma {:induction false} RoutedRunContinues(d: DailyPoint, a: Account, day: int, n: nat)
    requires d.lastClaimDate == Some(day - 1) && d.dailyReferrals == 0
    ensures |RoutedRun(d, a, day, n)| == n
    ensures forall k :: 0 <= k < n ==> RoutedRun(d, a, day, n)[k] == StreakAmount(d.currentStreak + k + 1)
    decreases n
  {
    if n > 0 {
      var c := ClaimDailyPoints(Some(d), a, day).value;
      RoutedRunContinues(c.record, c.account, day + 1, n - 1);
    }
  }

  /** After a claim yesterday, the variant pays the stored amount, then one
      step more each day. */
  lemma {:induction false} LegacyRunContinues(d: DailyPoint, a: Account, day: int, n: nat)
    requires d.lastClaimDate == Some(day - 1) && d.dailyReferrals == 0
    requires d.nextClaimAmount == StreakAmount(d.currentStreak)
    ensures |LegacyRun(d, a, day, n)| == n
    ensures forall k :: 0 <= k < n ==> LegacyRun(d, a, day, n)[k] == StreakAmount(d.currentStreak + k)
    decreases n
  {
    if n > 0 {
      var c := LegacyClaimDailyPoints(Some(d), a, day).value;
      LegacyRunContinues(c.record, c.account, day + 1, n - 1);
    }
  }

  /** From a fresh record, the routed handler pays 1000, 2000, ... up to
      30000 on the k-th consecutive day, then 30000 every day. */
  lemma RoutedRunFromFresh(a: Account, day: int, n: nat)
    ensures |RoutedRun(Fresh(day), a, day, n)| == n
    ensures forall k :: 0 <= k < n ==> RoutedRun(Fresh(day), a, day, n)[k] == StreakAmount(k + 1)
    ensures forall k :: 0 <= k < n - 1 ==>
              RoutedRun(Fresh(day), a, day, n)[k + 1] == StreakAmount(RoutedRun(Fresh(day), a, day, n)[k] / 1000 + 1)
  {
    if n > 0 {
      var c := ClaimDailyPoints(Some(Fresh(day)), a, day).value;
      RoutedRunContinues(c.record, c.account, day + 1, n - 1);
    }
  }

  /** From a fresh record, the variant pays 1000 twice and only then steps up:
      1000, 1000, 2000, 3000, ... */
  lemma LegacyRunFromFresh(a: Account, day: int, n: nat)
    ensures |LegacyRun(Fresh(day), a, day, n)| == n
    ensures forall k :: 1 <= k < n ==> LegacyRun(Fresh(day), a, day, n)[k] == StreakAmount(k)
    ensures n > 0 ==> LegacyRun(Fresh(day), a, day, n)[0] == 1000
  {
    if n > 0 {
      var c := LegacyClaimDailyPoints(Some(Fresh(day)), a, day).value;
      LegacyRunContinues(c.record, c.account, day + 1, n - 1);
    }
  }

  /** The two handlers disagree on every day from the second until the cap
      (the variant pays 1000 less) and agree from the 31st day on. */
  lemma RunsDiverge(a: Account, day: int, n: nat)
    ensures |RoutedRun(Fresh(day), a, day, n)| == |LegacyRun(Fresh(day), a, day, n)| == n
    ensures forall k :: 1 <= k < n && k < 30 ==>
              RoutedRun(Fresh(day), a, day, n)[k] == LegacyRun(Fresh(day), a, day, n)[k] + 1000
    ensures forall k :: 30 <= k < n ==>
              RoutedRun(Fresh(day), a, day, n)[k] == LegacyRun(Fresh(day), a, day, n)[k] == DailyCap
  {
    RoutedRunFromFresh(a, day, n);
    LegacyRunFromFresh(a, day, n);
  }

  /** Over five consecutive days from a fresh record the routed handler pays
      1000, 2000, 3000, 4000, 5000 and the variant 1000, 1000, 2000, 3000, 4000. */
  lemma FiveDayRegression(a: Account, day: int)
    ensures RoutedRun(Fresh(day), a, day, 5) == [1000, 2000, 3000, 4000, 5000]
    ensures LegacyRun(Fresh(day), a, day, 5) == [1000, 1000, 2000, 3000, 4000]
  {
    RoutedRunFromFresh(a, day, 5);
    LegacyRunFromFresh(a, day, 5);
    var r, l := RoutedRun(Fresh(day), a, day, 5), LegacyRun(Fresh(day), a, day, 5);
    assert r[0] == 1000 && r[1] == 2000 && r[2] == 3000 && r[3] == 4000 && r[4] == 5000;
    assert l[0] == 1000 && l[1] == 1000 && l[2] == 2000 && l[3] == 3000 && l[4] == 4000;
  }
}
