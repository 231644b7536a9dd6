/** The controller handlers around the earning session and the role: each
    looks the user up by Telegram id, calls the model methods and saves the
    document only on the paths where the controller does. */
module Handlers {
  import opened Wrappers
  import opened Accounts
  import opened Store
  import opened Earning

  datatype HandlerError = MissingFields | UserNotFound | AlreadyEarning | NothingToClaim

  /** The collection with user `i`'s document replaced and nothing else touched. */
  predicate SavedOnly(users: seq<Account>, users': seq<Account>, i: UserId, a: Account)
    requires i < |users|
  {
    |users'| == |users| && users'[i] == a && forall j :: 0 <= j < |users| && j != i ==> users'[j] == users[j]
  }

  /** `startEarning`: refuses an unknown user and one already earning;
      otherwise opens a session at `now` and saves. */
  function StartEarningHandler(users: seq<Account>, telegramUserId: string, now: int): (r: Result<seq<Account>, HandlerError>)
    ensures FindByTelegramId(users, telegramUserId).None? ==> r == Err(UserNotFound)
    ensures (FindByTelegramId(users, telegramUserId).Some? && users[FindByTelegramId(users, telegramUserId).value].isEarning)
              ==> r == Err(AlreadyEarning)
    ensures r.Ok? <==> FindByTelegramId(users, telegramUserId).Some? && CanStartEarning(users[FindByTelegramId(users, telegramUserId).value])
    ensures r.Ok? ==>
              var i := FindByTelegramId(users, telegramUserId).value;
              && SavedOnly(users, r.value, i, users[i].(isEarning := true, lastStartTime := Some(now)))
  {
    match FindByTelegramId(users, telegramUserId)
    case None => Err(UserNotFound)
    case Some(i) =>
      if users[i].isEarning then Err(AlreadyEarning)
      else Ok(users[i := StartEarning(users[i], now).1])
  }

  /** `claimPoints`: applies a due role expiry, then claims; the document is
      saved only when something was claimed, so a refused claim leaves the
      stored document as it was. */
  function ClaimPoints(users: seq<Account>, telegramUserId: string, now: int): (r: Result<(int, seq<Account>), HandlerError>)
    ensures FindByTelegramId(users, telegramUserId).None? ==> r == Err(UserNotFound)
    ensures r.Ok? <==>
              && FindByTelegramId(users, telegramUserId).Some?
              && CalculateEarnings(CheckAndUpdateRole(users[FindByTelegramId(users, telegramUserId).value], now), now) > 0
    ensures FindByTelegramId(users, telegramUserId).Some? && r.Err? ==> r == Err(NothingToClaim)
    ensures r.Ok? ==>
              var i := FindByTelegramId(users, telegramUserId).value;
              var checked := CheckAndUpdateRole(users[i], now);
              && r.value.0 == CalculateEarnings(checked, now) > 0
              && SavedOnly(users, r.value.1, i, Claim(checked, now).1)
              && !r.value.1[i].isEarning
  {
    match FindByTelegramId(users, telegramUserId)
    case None => Err(UserNotFound)
    case Some(i) =>
      var claimed := Claim(CheckAndUpdateRole(users[i], now), now);
      if claimed.0 > 0 then Ok((claimed.0, users[i := claimed.1])) else Err(NothingToClaim)
  }

  /** `setUserRole`: a role is required and the user must exist; the role
      is set as `setRole` sets it and saved. */
  function SetUserRole(users: seq<Account>, telegramUserId: string, role: Option<Role>, durationInDays: Option<int>, now: int)
    : (r: Result<seq<Account>, HandlerError>)
    ensures role.None? ==> r == Err(MissingFields)
    ensures role.Some? && FindByTelegramId(users, telegramUserId).None? ==> r == Err(UserNotFound)
    ensures r.Ok? <==> role.Some? && FindByTelegramId(users, telegramUserId).Some?
    ensures r.Ok? ==>
              var i := FindByTelegramId(users, telegramUserId).value;
              && SavedOnly(users, r.value, i, SetRole(users[i], role.value, durationInDays, now))
              && r.value[i].role == role.value
  {
    if role.None? then Err(MissingFields)
    else
      match FindByTelegramId(users, telegramUserId)
      case None => Err(UserNotFound)
      case Some(i) => Ok(users[i := SetRole(users[i], role.value, durationInDays, now)])
  }

  /** `claimHourlyPoints`: refuses an unknown user and one already earning;
      otherwise starts a session and claims at the same instant, which
      collects nothing, and saves the session as opened. */
  function ClaimHourlyPoints(users: seq<Account>, telegramUserId: string, now: int): (r: Result<(int, seq<Account>), HandlerError>)
    ensures FindByTelegramId(users, telegramUserId).None? ==> r == Err(UserNotFound)
    ensures r.Ok? <==> FindByTelegramId(users, telegramUserId).Some? && CanStartEarning(users[FindByTelegramId(users, telegramUserId).value])
    ensures FindByTelegramId(users, telegramUserId).Some? && r.Err? ==> r == Err(AlreadyEarning)
    ensures r.Ok? ==>
              var i := FindByTelegramId(users, telegramUserId).value;
              && r.value.0 == 0
              && SavedOnly(users, r.value.1, i, users[i].(isEarning := true, lastStartTime := Some(now)))
  {
    match FindByTelegramId(users, telegramUserId)
    case None => Err(UserNotFound)
    case Some(i) =>
      if !CanStartEarning(users[i]) then Err(AlreadyEarning)
      else
        StartThenClaimAtOnceCollectsNothing(users[i], now);
        var claimed := Claim(StartEarning(users[i], now).1, now);
        Ok((claimed.0, users[i := claimed.1]))
  }

  /** A booster whose role expires while a session runs is stuck: from then
      on every claim is refused (so the expiry is never saved) and every
      start, hourly claim included, is refused because the stored document still says it is earning. */
  lemma ExpiredSessionIsStuck(users: seq<Account>, telegramUserId: string, now: int, later: int)
    requires FindByTelegramId(users, telegramUserId).Some?
    requires var a := users[FindByTelegramId(users, telegramUserId).value]; Expired(a, now) && a.isEarning
    requires now <= later
    ensures ClaimPoints(users, telegramUserId, later) == Err(NothingToClaim)
    ensures StartEarningHandler(users, telegramUserId, later) == Err(AlreadyEarning)
    ensures ClaimHourlyPoints(users, telegramUserId, later) == Err(AlreadyEarning)
    ensures !CanStartEarning(users[FindByTelegramId(users, telegramUserId).value])
  {
    var a := users[FindByTelegramId(users, telegramUserId).value];
    assert Expired(a, later);
    ExpiryForfeitsSession(a, later, later);
  }
}
