/** Referral classification: the number of referrals places a user in one of
    three tiers, written into the `role` field. The tier's award is paid
    whenever the stored role is below the tier, so it is paid once unless
    something else overwrites the role in between. */
module Classification {
  import opened Accounts
  import Earning
  import opened Wrappers

  const PromoterThreshold: nat := 1001
  const InfluencerThreshold: nat := 5001
  const AmbassadorThreshold: nat := 10001

  const PromoterAward: int := 159000
  const InfluencerAward: int := 500000
  const AmbassadorAward: int := 1200000

  /** The classification a referral count earns. */
  function Classify(referralCount: nat): (c: Role)
    ensures c == Ambassador <==> referralCount >= AmbassadorThreshold
    ensures c == Influencer <==> InfluencerThreshold <= referralCount < AmbassadorThreshold
    ensures c == Promoter <==> PromoterThreshold <= referralCount < InfluencerThreshold
    ensures c == User <==> referralCount < PromoterThreshold
  {
    if referralCount >= AmbassadorThreshold then Ambassador
    else if referralCount >= InfluencerThreshold then Influencer
    else if referralCount >= PromoterThreshold then Promoter
    else User
  }

  /** The height of a role on the classification ladder; every role that is
      not a classification sits at the bottom. */
  function Tier(r: Role): nat
  {
    match r
    case Promoter => 1
    case Influencer => 2
    case Ambassador => 3
    case _ => 0
  }

  /** The award for arriving in a tier. */
  function TierAward(r: Role): int
  {
    match r
    case Promoter => PromoterAward
    case Influencer => InfluencerAward
    case Ambassador => AmbassadorAward
    case _ => 0
  }

  /** The award `updateUserClassification` computes: the new tier's award
      when the stored role is not that tier or a higher one. */
  function Award(referralCount: nat, role: Role): (p: int)
    ensures p > 0 <==> Tier(role) < Tier(Classify(referralCount))
    ensures p > 0 ==> p == TierAward(Classify(referralCount))
    ensures p >= 0
  {
    if referralCount >= AmbassadorThreshold then
      (if role != Ambassador then AmbassadorAward else 0)
    else if referralCount >= InfluencerThreshold then
      (if role != Influencer && role != Ambassador then InfluencerAward else 0)
    else if referralCount >= PromoterThreshold then
      (if role != Promoter && role != Influencer && role != Ambassador then PromoterAward else 0)
    else 0
  }

  /** The outcome of a classification update. */
  datatype Update = Update(account: Account, newClassification: Role, pointsAwarded: int)

  /** `updateUserClassification`: when the count's classification differs
      from the stored role, the role is overwritten and the award is added to
      both the balance and the lifetime total; otherwise nothing changes and
      nothing is awarded. */
  function UpdateUserClassification(a: Account): (r: Update)
    ensures r.newClassification == Classify(|a.referrals|)
    ensures r.account == AddEarnings(a.(role := r.newClassification), r.pointsAwarded)
    ensures r.pointsAwarded >= 0
    ensures r.pointsAwarded > 0 <==> Tier(a.role) < Tier(r.newClassification)
    ensures r.pointsAwarded > 0 ==> r.pointsAwarded == TierAward(r.newClassification)
    ensures a.role == Classify(|a.referrals|) ==> r.account == a
  {
    var c := Classify(|a.referrals|);
    if c != a.role then Update(AddEarnings(a.(role := c), Award(|a.referrals|, a.role)), c, Award(|a.referrals|, a.role))
    else Update(a, a.role, 0)
  }

  /** An immediate second update changes nothing and awards nothing. */
  lemma UpdateIdempotent(a: Account)
    ensures var u := UpdateUserClassification(a);
            UpdateUserClassification(u.account) == Update(u.account, u.newClassification, 0)
  {
  }

  /** A booster with fewer than 1001 referrals is reset to the plain role,
      losing the booster, with nothing awarded. */
  lemma BoosterBelowThresholdDemoted(a: Account)
    requires a.role != User && Tier(a.role) == 0
    requires |a.referrals| < PromoterThreshold
    ensures UpdateUserClassification(a) == Update(a.(role := User), User, 0)
  {
  }

  /** A classified user holds a role outside the schema enum, and the earning
      session pays such a role nothing; a booster with 1001 or more
      referrals therefore loses its multiplier. */
  lemma ClassifiedRoleEarnsNothing(a: Account, now: int)
    requires |a.referrals| >= PromoterThreshold
    ensures var u := UpdateUserClassification(a).account;
            && !InSchemaEnum(u.role)
            && Earning.CalculateEarnings(u, now) == 0
  {
  }

  /** Climbing the ladder one tier at a time collects every award once: a
      user with no classification who reaches 1001, then 5001, then 10001
      referrals is paid 159000 + 500000 + 1200000 in all. */
  lemma ClimbCollectsEachAward(a: Account, r1: seq<UserId>, r2: seq<UserId>, r3: seq<UserId>)
    requires Tier(a.role) == 0
    requires |r1| == PromoterThreshold && |r2| == InfluencerThreshold && |r3| == AmbassadorThreshold
    ensures var u1 := UpdateUserClassification(a.(referrals := r1));
            var u2 := UpdateUserClassification(u1.account.(referrals := r2));
            var u3 := UpdateUserClassification(u2.account.(referrals := r3));
            && u1.pointsAwarded + u2.pointsAwarded + u3.pointsAwarded == 1859000
            && u3.account.totalEarnings == a.totalEarnings + 1859000
            && u3.account.role == Ambassador
  {
  }

  /** Overwriting a classified user's role with an earning tier, as
      `setRole` does, makes the tier's award payable again in full. */
  lemma SetRoleRepaysAward(a: Account, role: Role, durationInDays: Option<int>, now: int)
    requires InSchemaEnum(role) && |a.referrals| >= PromoterThreshold
    ensures var b := UpdateUserClassification(a).account;
            var again := UpdateUserClassification(Earning.SetRole(b, role, durationInDays, now));
            && again.pointsAwarded == TierAward(Classify(|a.referrals|))
            && again.pointsAwarded >= PromoterAward
  {
  }

  /** A role expiry reverts a classified user to User, and the next update
      pays the tier's award again. */
  lemma ExpiryRepaysAward(a: Account, now: int)
    requires |a.referrals| >= PromoterThreshold && Earning.Expired(a, now)
    ensures var b := UpdateUserClassification(a).account;
            UpdateUserClassification(Earning.CheckAndUpdateRole(b, now)).pointsAwarded == TierAward(Classify(|a.referrals|))
  {
  }

  /** Jumping straight to the top tier pays only that tier's award. */
  lemma JumpPaysTopAwardOnly(a: Account)
    requires Tier(a.role) == 0 && |a.referrals| >= AmbassadorThreshold
    ensures UpdateUserClassification(a).pointsAwarded == AmbassadorAward
  {
  }
}
