/** The document store the handlers read and write: the user collection and
    the DailyPoint records keyed by their owner. A user's id is its position
    in `users`. The model assumes `find` returns users in that order, which
    decides ties in the ranking. */
module Store {
  import opened Wrappers
  import opened Accounts
  import opened DailyPoints
  import Seqs

  datatype World = World(users: seq<Account>, daily: map<UserId, DailyPoint>)

  /** Every `referredBy` points at a user registered earlier. */
  predicate ReferrersPrecede(users: seq<Account>)
  {
    forall i :: 0 <= i < |users| && users[i].referredBy.Some? ==> users[i].referredBy.value < i
  }

  /** The unique indexes on `username` and `telegramUserId`. */
  predicate UniqueKeys(users: seq<Account>)
  {
    forall i, j :: 0 <= i < j < |users| ==>
      users[i].username != users[j].username && users[i].telegramUserId != users[j].telegramUserId
  }

  /** The store invariant registration maintains. */
  predicate Valid(users: seq<Account>)
  {
    ReferrersPrecede(users) && UniqueKeys(users)
  }

  /** `findOne({ username })`. */
  function FindByUsername(users: seq<Account>, name: string): (r: Option<UserId>)
    ensures r.Some? ==> r.value < |users| && users[r.value].username == name
    ensures r.Some? ==> forall j :: 0 <= j < r.value ==> users[j].username != name
    ensures r.None? <==> forall i :: 0 <= i < |users| ==> users[i].username != name
  {
    Seqs.FindFirst(users, (u: Account) => u.username == name)
  }

  /** `findOne({ telegramUserId })`. */
  function FindByTelegramId(users: seq<Account>, telegramUserId: string): (r: Option<UserId>)
    ensures r.Some? ==> r.value < |users| && users[r.value].telegramUserId == telegramUserId
    ensures r.Some? ==> forall j :: 0 <= j < r.value ==> users[j].telegramUserId != telegramUserId
    ensures r.None? <==> forall i :: 0 <= i < |users| ==> users[i].telegramUserId != telegramUserId
  {
    Seqs.FindFirst(users, (u: Account) => u.telegramUserId == telegramUserId)
  }

  /** Under unique keys, a lookup by username finds the one user carrying it. */
  lemma FindByUsernameUnique(users: seq<Account>, i: UserId)
    requires UniqueKeys(users) && i < |users|
    ensures FindByUsername(users, users[i].username) == Some(i)
  {
  }

  /** Rewriting the found user's document without renaming it keeps the
      lookup pointing at it. */
  lemma FindByUsernameKept(users: seq<Account>, name: string, i: UserId, a: Account)
    requires FindByUsername(users, name) == Some(i) && a.username == name
    ensures FindByUsername(users[i := a], name) == Some(i)
  {
    var users' := users[i := a];
    assert users'[i].username == name;
    assert forall j :: 0 <= j < i ==> users'[j] == users[j];
  }

  /** Only the balances and lifetime totals may differ between two stores. */
  predicate SameButBalances(users: seq<Account>, users': seq<Account>)
  {
    |users'| == |users| &&
    forall i :: 0 <= i < |users| ==>
      users'[i] == users[i].(balance := users'[i].balance, totalEarnings := users'[i].totalEarnings)
  }

  /** Two stores of one size whose `referredBy` links agree. */
  predicate SameLinks(users: seq<Account>, users': seq<Account>)
  {
    |users'| == |users| && forall i :: 0 <= i < |users| ==> users'[i].referredBy == users[i].referredBy
  }

  /** `users'` extends `users` without changing its links. */
  predicate LinksExtend(users: seq<Account>, users': seq<Account>)
  {
    |users| <= |users'| && forall i :: 0 <= i < |users| ==> users'[i].referredBy == users[i].referredBy
  }

  /** Sum of the lifetime totals of all users. */
  function TotalEarned(users: seq<Account>): int
  {
    if |users| == 0 then 0 else TotalEarned(users[..|users| - 1]) + users[|users| - 1].totalEarnings
  }

  /** Replacing one user changes the store-wide lifetime total by the
      difference of the two records' totals. */
  lemma {:induction false} TotalEarnedUpdate(users: seq<Account>, i: UserId, a: Account)
    requires i < |users|
    ensures TotalEarned(users[i := a]) == TotalEarned(users) - users[i].totalEarnings + a.totalEarnings
    decreases |users|
  {
    var users' := users[i := a];
    var n := |users|;
    if i < n - 1 {
      assert users'[..n - 1] == users[..n - 1][i := a];
      TotalEarnedUpdate(users[..n - 1], i, a);
    } else {
      assert users'[..n - 1] == users[..n - 1];
    }
  }

  /** Crediting one user raises the store-wide lifetime total by the credit. */
  lemma TotalEarnedCredit(users: seq<Account>, i: UserId, amount: int)
    requires i < |users|
    ensures TotalEarned(users[i := AddEarnings(users[i], amount)]) == TotalEarned(users) + amount
  {
    TotalEarnedUpdate(users, i, AddEarnings(users[i], amount));
  }

  /** Appending a user adds its lifetime total. */
  lemma TotalEarnedAppend(users: seq<Account>, a: Account)
    ensures TotalEarned(users + [a]) == TotalEarned(users) + a.totalEarnings
  {
    assert (users + [a])[..|users|] == users;
  }
}
