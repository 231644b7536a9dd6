/** The user record shared by every engine: balances, earning session, role
    and role expiry, and the referral, task, promo-code and stake lists. */
module Accounts {
  import opened Wrappers

  /** Document identities. Each collection is a sequence and an identity is
      the position at which its document was inserted. */
  type UserId = nat
  type StakeId = nat
  type TaskId = nat
  type PromoId = nat

  /** The value stored in a user's `role` field. The first five are the
      earning tiers the schema lists; the last three are the referral
      classifications the leaderboard writes into the same field. */
  datatype Role =
    | User
    | MonthlyBooster
    | LifeTimeBooster
    | Monthly3xBooster
    | LifeTime6xBooster
    | Promoter
    | Influencer
    | Ambassador

  /** The values the schema's `role` enum admits. */
  predicate InSchemaEnum(r: Role)
  {
    r.User? || r.MonthlyBooster? || r.LifeTimeBooster? || r.Monthly3xBooster? || r.LifeTime6xBooster?
  }

  /** The roles whose name contains "LifeTime". */
  predicate IsLifeTime(r: Role)
  {
    r.LifeTimeBooster? || r.LifeTime6xBooster?
  }

  /** One entry of `usedPromoCodes`: which code, and when (ms). */
  datatype PromoUse = PromoUse(promo: PromoId, usedAt: int)

  /** A user document. Instants are milliseconds; an absent instant is null.
      `balance` is rational because matured stakes pay unrounded interest. */
  datatype Account = Account(
    telegramUserId: string,
    username: string,
    role: Role,
    balance: real,
    totalEarnings: int,
    isEarning: bool,
    lastStartTime: Option<int>,
    lastClaimTime: Option<int>,
    roleExpiryDate: Option<int>,
    referredBy: Option<UserId>,
    referrals: seq<UserId>,
    tasksCompleted: seq<TaskId>,
    usedPromoCodes: seq<PromoUse>,
    stakes: seq<StakeId>)

  /** A user as first saved, with every schema default. */
  function NewAccount(telegramUserId: string, username: string, referredBy: Option<UserId>): (a: Account)
    ensures a.role == User && a.balance == 0.0 && a.totalEarnings == 0
    ensures !a.isEarning && a.lastStartTime.None? && a.roleExpiryDate.None?
    ensures a.referrals == [] && a.tasksCompleted == [] && a.usedPromoCodes == [] && a.stakes == []
    ensures a.lastClaimTime.None?
    ensures a.telegramUserId == telegramUserId && a.username == username && a.referredBy == referredBy
  {
    Account(telegramUserId, username, User, 0.0, 0, false, None, None, None, referredBy, [], [], [], [])
  }

  /** `addEarnings`: credit both the spendable balance and the lifetime total. */
  function AddEarnings(a: Account, amount: int): (r: Account)
    ensures r.balance == a.balance + amount as real
    ensures r.totalEarnings == a.totalEarnings + amount
    ensures r == a.(balance := r.balance, totalEarnings := r.totalEarnings)
  {
    a.(balance := a.balance + amount as real, totalEarnings := a.totalEarnings + amount)
  }

  /** What has left the balance without leaving the lifetime total: stakes
      escrowed, minus interest and promo boosts received. */
  function Withdrawn(a: Account): real
  {
    a.totalEarnings as real - a.balance
  }

  /** Crediting earnings never changes what has been withdrawn, and two
      credits are one credit of their sum. */
  lemma AddEarningsAdditive(a: Account, x: int, y: int)
    ensures Withdrawn(AddEarnings(a, x)) == Withdrawn(a)
    ensures AddEarnings(AddEarnings(a, x), y) == AddEarnings(a, x + y)
  {
  }
}
