/** Promo codes: a code adds a fixed boost to the balance and can be used
    again by the same user only once 24 hours have passed since their
    recent use of it. */
module Promo {
  import opened Wrappers
  import opened Accounts
  import opened Clock
  import opened Store
  import Seqs

  /** A promo code document; its id is its position in the collection. */
  datatype PromoCode = PromoCode(code: string, pointsBoost: int, isActive: bool, expirationDate: Option<int>)

  datatype PromoError =
    | MissingFields
    | UserNotFound
    | CodeNotFound
    | Inactive
    | Expired
    | Cooldown(hoursLeft: int)

  /** `PromoCode.findOne({ code })`. */
  function FindCode(codes: seq<PromoCode>, code: string): (r: Option<PromoId>)
    ensures r.Some? ==> r.value < |codes| && codes[r.value].code == code
    ensures r.None? <==> forall i :: 0 <= i < |codes| ==> codes[i].code != code
  {
    Seqs.FindFirst(codes, (c: PromoCode) => c.code == code)
  }

  /** A use of `promo` less than 24 hours before `now`. */
  predicate Recent(u: PromoUse, promo: PromoId, now: int)
  {
    u.promo == promo && u.usedAt > now - MsPerDay
  }

  /** The first recorded use of `promo` that is still within its cooldown. */
  function RecentUse(uses: seq<PromoUse>, promo: PromoId, now: int): (r: Option<nat>)
    ensures r.Some? ==> r.value < |uses| && Recent(uses[r.value], promo, now)
    ensures r.Some? ==> forall j :: 0 <= j < r.value ==> !Recent(uses[j], promo, now)
    ensures r.None? <==> forall j :: 0 <= j < |uses| ==> !Recent(uses[j], promo, now)
  {
    Seqs.FindFirst(uses, (u: PromoUse) => Recent(u, promo, now))
  }

  /** Whole hours, rounded up, until a use made at `usedAt` stops blocking. */
  function HoursLeft(usedAt: int, now: int): (h: int)
    ensures (h - 1) * MsPerHour < usedAt + MsPerDay - now <= h * MsPerHour
  {
    CeilHours(usedAt + MsPerDay - now)
  }

  /** `applyPromoCode`. Guards, in order: both inputs present; the user
      exists; the code exists; it is active; it has not expired; the user
      has no recent use of it (the error then says how many hours remain).
      On success the boost goes to the balance only and the use is logged
      with the current time. */
  function ApplyPromoCode(users: seq<Account>, codes: seq<PromoCode>, telegramUserId: string, code: string, now: int)
    : (r: Result<seq<Account>, PromoError>)
    ensures |telegramUserId| == 0 || |code| == 0 ==> r == Err(MissingFields)
    ensures |telegramUserId| > 0 && |code| > 0 && FindByTelegramId(users, telegramUserId).None? ==> r == Err(UserNotFound)
    ensures (|telegramUserId| > 0 && |code| > 0 && FindByTelegramId(users, telegramUserId).Some? && FindCode(codes, code).None?)
              ==> r == Err(CodeNotFound)
    ensures (|telegramUserId| > 0 && |code| > 0 && FindByTelegramId(users, telegramUserId).Some? && FindCode(codes, code).Some?)
              ==> var c := codes[FindCode(codes, code).value];
                  && (!c.isActive ==> r == Err(Inactive))
                  && (c.isActive && c.expirationDate.Some? && c.expirationDate.value < now ==> r == Err(Expired))
    ensures (|telegramUserId| > 0 && |code| > 0 && FindByTelegramId(users, telegramUserId).Some? && FindCode(codes, code).Some?)
              ==> var p := FindCode(codes, code).value;
                  var uses := users[FindByTelegramId(users, telegramUserId).value].usedPromoCodes;
                  var blocking := RecentUse(uses, p, now);
                  codes[p].isActive && (codes[p].expirationDate.None? || codes[p].expirationDate.value >= now) && blocking.Some?
                  ==> r == Err(Cooldown(HoursLeft(uses[blocking.value].usedAt, now)))
    ensures r.Ok? <==>
              && |telegramUserId| > 0 && |code| > 0
              && FindByTelegramId(users, telegramUserId).Some?
              && FindCode(codes, code).Some?
              && var c := codes[FindCode(codes, code).value];
                 && c.isActive
                 && (c.expirationDate.None? || c.expirationDate.value >= now)
                 && forall j :: 0 <= j < |users[FindByTelegramId(users, telegramUserId).value].usedPromoCodes| ==>
                      !Recent(users[FindByTelegramId(users, telegramUserId).value].usedPromoCodes[j], FindCode(codes, code).value, now)
    ensures r.Ok? ==>
              var i, p := FindByTelegramId(users, telegramUserId).value, FindCode(codes, code).value;
              && |r.value| == |users|
              && r.value[i] == users[i].(balance := users[i].balance + codes[p].pointsBoost as real,
                                         usedPromoCodes := users[i].usedPromoCodes + [PromoUse(p, now)])
              && forall j :: 0 <= j < |users| && j != i ==> r.value[j] == users[j]
    ensures r.Err? && r.error.Cooldown? ==>
              FindByTelegramId(users, telegramUserId).Some? && FindCode(codes, code).Some? &&
              var i, p := FindByTelegramId(users, telegramUserId).value, FindCode(codes, code).value;
              var uses := users[i].usedPromoCodes;
              exists j :: 0 <= j < |uses| && Recent(uses[j], p, now) && r.error.hoursLeft == HoursLeft(uses[j].usedAt, now)
    ensures r.Err? && r.error.Cooldown? ==> r.error.hoursLeft >= 1
  {
    if |telegramUserId| == 0 || |code| == 0 then Err(MissingFields)
    else
      match FindByTelegramId(users, telegramUserId)
      case None => Err(UserNotFound)
      case Some(i) =>
        match FindCode(codes, code)
        case None => Err(CodeNotFound)
        case Some(p) =>
          var c := codes[p];
          if !c.isActive then Err(Inactive)
          else if c.expirationDate.Some? && c.expirationDate.value < now then Err(Expired)
          else
            var u := users[i];
            match RecentUse(u.usedPromoCodes, p, now)
            case Some(j) => Err(Cooldown(HoursLeft(u.usedPromoCodes[j].usedAt, now)))
            case None =>
              Ok(users[i := u.(balance := u.balance + c.pointsBoost as real,
                               usedPromoCodes := u.usedPromoCodes + [PromoUse(p, now)])])
  }

  /** A boost is not an earning: the lifetime total stays where it was. */
  lemma PromoLeavesTotalEarned(users: seq<Account>, codes: seq<PromoCode>, telegramUserId: string, code: string, now: int)
    requires ApplyPromoCode(users, codes, telegramUserId, code, now).Ok?
    ensures TotalEarned(ApplyPromoCode(users, codes, telegramUserId, code, now).value) == TotalEarned(users)
  {
    var i := FindByTelegramId(users, telegramUserId).value;
    var users' := ApplyPromoCode(users, codes, telegramUserId, code, now).value;
    assert users' == users[i := users'[i]];
    TotalEarnedUpdate(users, i, users'[i]);
  }

  /** Applying the same code again at once is refused with a full 24 hours to wait. */
  lemma {:induction false} ReapplyAtOnceWaitsADay(users: seq<Account>, codes: seq<PromoCode>, telegramUserId: string, code: string, now: int)
    requires ApplyPromoCode(users, codes, telegramUserId, code, now).Ok?
    ensures ApplyPromoCode(ApplyPromoCode(users, codes, telegramUserId, code, now).value, codes, telegramUserId, code, now)
              == Err(Cooldown(24))
  {
    var i, p := FindByTelegramId(users, telegramUserId).value, FindCode(codes, code).value;
    var users' := ApplyPromoCode(users, codes, telegramUserId, code, now).value;
    var uses := users[i].usedPromoCodes;
    var uses' := users'[i].usedPromoCodes;
    assert uses' == uses + [PromoUse(p, now)];
    SameKeysSameLookup(users, users', i, telegramUserId);
    assert RecentUse(uses', p, now) == Some(|uses|) by {
      assert forall j :: 0 <= j < |uses| ==> uses'[j] == uses[j];
      assert Recent(uses'[|uses|], p, now);
    }
    assert HoursLeft(now, now) == 24;
  }

  /** Once 24 hours have passed, the same code is accepted again unless it
      has expired in the meantime or been switched off. */
  lemma {:induction false} ReapplyAfterADay(users: seq<Account>, codes: seq<PromoCode>, telegramUserId: string, code: string, now: int, later: int)
    requires ApplyPromoCode(users, codes, telegramUserId, code, now).Ok?
    requires later >= now + MsPerDay
    ensures var c := codes[FindCode(codes, code).value];
            var again := ApplyPromoCode(ApplyPromoCode(users, codes, telegramUserId, code, now).value, codes, telegramUserId, code, later);
            again.Ok? <==> c.expirationDate.None? || c.expirationDate.value >= later
  {
    var i, p := FindByTelegramId(users, telegramUserId).value, FindCode(codes, code).value;
    var users' := ApplyPromoCode(users, codes, telegramUserId, code, now).value;
    var uses := users[i].usedPromoCodes;
    var uses' := users'[i].usedPromoCodes;
    assert uses' == uses + [PromoUse(p, now)];
    SameKeysSameLookup(users, users', i, telegramUserId);
    forall j | 0 <= j < |uses'|
      ensures !Recent(uses'[j], p, later)
    {
      if j < |uses| {
        assert uses'[j] == uses[j];
        assert !Recent(uses[j], p, now);
      }
    }
  }

  /** Waiting the announced number of hours is enough: the use that blocked
      the code is no longer recent then. */
  lemma CooldownHoursSuffice(usedAt: int, promo: PromoId, now: int)
    requires Recent(PromoUse(promo, usedAt), promo, now)
    ensures HoursLeft(usedAt, now) >= 1
    ensures !Recent(PromoUse(promo, usedAt), promo, now + HoursLeft(usedAt, now) * MsPerHour)
    ensures HoursLeft(usedAt, now) > 1 ==> Recent(PromoUse(promo, usedAt), promo, now + (HoursLeft(usedAt, now) - 1) * MsPerHour)
  {
  }

  /** Replacing a user's record without touching its Telegram id keeps the
      lookup pointing at it. */
  lemma SameKeysSameLookup(users: seq<Account>, users': seq<Account>, i: UserId, telegramUserId: string)
    requires FindByTelegramId(users, telegramUserId) == Some(i)
    requires |users'| == |users| && users'[i].telegramUserId == users[i].telegramUserId
    requires forall j :: 0 <= j < |users| && j != i ==> users'[j] == users[j]
    ensures FindByTelegramId(users', telegramUserId) == Some(i)
  {
    assert forall j :: 0 <= j < i ==> users'[j].telegramUserId != telegramUserId;
  }
}
