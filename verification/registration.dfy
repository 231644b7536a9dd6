/** Registration and the referral cascade. A new user gets a join bonus; when
    registered with a referral code (an existing username) the referrer gets
    the new user on its list, a flat bonus, and the first of five cascading
    bonuses that walk up the `referredBy` chain. */
module Registration {
  import opened Wrappers
  import opened Accounts
  import opened DailyPoints
  import opened Store

  const JoinBonus: int := 30000
  const DirectReferralBonus: int := 15000
  const CascadeBase: real := 30000.0
  const CascadeRates: seq<real> := [0.20, 0.10, 0.05, 0.025, 0.0125]
  const CascadeLevels: nat := 5

  /** `Math.floor(30000 × rate)` for the level-th ancestor (level 0 is the referrer). */
  function CascadeBonus(level: nat): int
    requires level < CascadeLevels
  {
    (CascadeBase * CascadeRates[level]).Floor
  }

  lemma CascadeBonusValues()
    ensures CascadeBonus(0) == 6000 && CascadeBonus(1) == 3000 && CascadeBonus(2) == 1500
    ensures CascadeBonus(3) == 750 && CascadeBonus(4) == 375
  {
  }

  /** The user the walk reaches after `k` steps up from `cur`, if the chain
      is that long (a missing or unknown referrer ends it). */
  function Chain(users: seq<Account>, cur: Option<UserId>, k: nat): (r: Option<UserId>)
    ensures r.Some? ==> r.value < |users|
    decreases k
  {
    if cur.None? || cur.value >= |users| then None
    else if k == 0 then cur
    else Chain(users, users[cur.value].referredBy, k - 1)
  }

  /** The bonus loop of `processReferral`: credit the user at `cur` with the
      bonus of `level`, move to its referrer, stop after level 4 or when the
      chain ends. */
  function Cascade(users: seq<Account>, cur: Option<UserId>, level: nat): (r: seq<Account>)
    requires level <= CascadeLevels
    ensures SameButBalances(users, r)
    ensures forall i :: 0 <= i < |r| ==> r[i].totalEarnings >= users[i].totalEarnings
    ensures forall i :: 0 <= i < |r| ==> Withdrawn(r[i]) == Withdrawn(users[i])
    decreases CascadeLevels - level
  {
    if level == CascadeLevels || cur.None? || cur.value >= |users| then users
    else
      var i := cur.value;
      Cascade(users[i := AddEarnings(users[i], CascadeBonus(level))], users[i].referredBy, level + 1)
  }

  /** What the cascade pays out in total. */
  function CascadePaid(users: seq<Account>, cur: Option<UserId>, level: nat): int
    requires level <= CascadeLevels
    decreases CascadeLevels - level
  {
    if level == CascadeLevels || cur.None? || cur.value >= |users| then 0
    else CascadeBonus(level) + CascadePaid(users, users[cur.value].referredBy, level + 1)
  }

  // ---------------------------------------------------------------------
  // The cascade against the chain
  // ---------------------------------------------------------------------

  lemma {:induction false} ChainSameLinks(users: seq<Account>, users': seq<Account>, cur: Option<UserId>, k: nat)
    requires SameLinks(users, users')
    ensures Chain(users', cur, k) == Chain(users, cur, k)
    decreases k
  {
    if cur.Some? && cur.value < |users| && k > 0 {
      ChainSameLinks(users, users', users[cur.value].referredBy, k - 1);
    }
  }

  /** Registering later users does not change a walk that starts among
      earlier ones. */
  lemma {:induction false} ChainExtends(users: seq<Account>, users': seq<Account>, cur: Option<UserId>, k: nat)
    requires ReferrersPrecede(users) && LinksExtend(users, users')
    requires cur.None? || cur.value < |users|
    ensures Chain(users', cur, k) == Chain(users, cur, k)
    decreases k
  {
    if cur.Some? && k > 0 {
      ChainExtends(users, users', users[cur.value].referredBy, k - 1);
    }
  }

  lemma {:induction false} CascadePaidExtends(users: seq<Account>, users': seq<Account>, cur: Option<UserId>, level: nat)
    requires level <= CascadeLevels && ReferrersPrecede(users) && LinksExtend(users, users')
    requires cur.None? || cur.value < |users|
    ensures CascadePaid(users', cur, level) == CascadePaid(users, cur, level)
    decreases CascadeLevels - level
  {
    if level < CascadeLevels && cur.Some? {
      CascadePaidExtends(users, users', users[cur.value].referredBy, level + 1);
    }
  }

  /** Along a chain whose referrers precede their referrals, ids strictly decrease. */
  lemma {:induction false} ChainDescends(users: seq<Account>, cur: Option<UserId>, k: nat)
    requires ReferrersPrecede(users)
    ensures Chain(users, cur, k).Some? ==> cur.Some? && Chain(users, cur, k).value <= cur.value
    ensures Chain(users, cur, k).Some? && k > 0 ==> Chain(users, cur, k).value < cur.value
    decreases k
  {
    if cur.Some? && cur.value < |users| && k > 0 {
      ChainDescends(users, users[cur.value].referredBy, k - 1);
    }
  }

  /** Users above the walk's starting point are never credited. */
  lemma {:induction false} CascadeLeavesLaterUsers(users: seq<Account>, cur: Option<UserId>, level: nat, j: UserId)
    requires level <= CascadeLevels && ReferrersPrecede(users) && j < |users|
    requires cur.None? || cur.value < j
    ensures Cascade(users, cur, level)[j] == users[j]
    decreases CascadeLevels - level
  {
    if level < CascadeLevels && cur.Some? && cur.value < |users| {
      var i := cur.value;
      var users' := users[i := AddEarnings(users[i], CascadeBonus(level))];
      assert ReferrersPrecede(users');
      CascadeLeavesLaterUsers(users', users[i].referredBy, level + 1, j);
    }
  }

  /** The user `k` steps up the chain receives exactly the bonus of level
      `level + k`, once. */
  lemma {:induction false} CascadePaysChain(users: seq<Account>, cur: Option<UserId>, level: nat, k: nat, i: UserId)
    requires level + k < CascadeLevels && ReferrersPrecede(users)
    requires Chain(users, cur, k) == Some(i)
    ensures Cascade(users, cur, level)[i] == AddEarnings(users[i], CascadeBonus(level + k))
    decreases k
  {
    var c := cur.value;
    var users' := users[c := AddEarnings(users[c], CascadeBonus(level))];
    var next := users[c].referredBy;
    assert ReferrersPrecede(users');
    if k == 0 {
      assert i == c;
      CascadeLeavesLaterUsers(users', next, level + 1, i);
    } else {
      ChainDescends(users, cur, k);
      assert Chain(users, next, k - 1) == Some(i);
      ChainSameLinks(users, users', next, k - 1);
      CascadePaysChain(users', next, level + 1, k - 1, i);
    }
  }

  /** A user off the chain (within the five levels) is untouched. */
  lemma {:induction false} CascadeSparesOthers(users: seq<Account>, cur: Option<UserId>, level: nat, i: UserId)
    requires level <= CascadeLevels && i < |users|
    requires forall k :: level + k < CascadeLevels ==> Chain(users, cur, k) != Some(i)
    ensures Cascade(users, cur, level)[i] == users[i]
    decreases CascadeLevels - level
  {
    if level < CascadeLevels && cur.Some? && cur.value < |users| {
      var c := cur.value;
      assert Chain(users, cur, 0) == Some(c);
      var users' := users[c := AddEarnings(users[c], CascadeBonus(level))];
      var next := users[c].referredBy;
      forall k: nat | level + 1 + k < CascadeLevels
        ensures Chain(users', next, k) != Some(i)
      {
        ChainSameLinks(users, users', next, k);
        assert Chain(users, cur, k + 1) == Chain(users, next, k);
      }
      CascadeSparesOthers(users', next, level + 1, i);
    }
  }

  /** The cascade raises the store-wide lifetime total by what it pays. */
  lemma {:induction false} CascadeTotal(users: seq<Account>, cur: Option<UserId>, level: nat)
    requires level <= CascadeLevels
    ensures TotalEarned(Cascade(users, cur, level)) == TotalEarned(users) + CascadePaid(users, cur, level)
    decreases CascadeLevels - level
  {
    if level < CascadeLevels && cur.Some? && cur.value < |users| {
      var c := cur.value;
      var users' := users[c := AddEarnings(users[c], CascadeBonus(level))];
      TotalEarnedCredit(users, c, CascadeBonus(level));
      CascadeTotal(users', users[c].referredBy, level + 1);
      assert CascadePaid(users', users[c].referredBy, level + 1) == CascadePaid(users, users[c].referredBy, level + 1) by {
        CascadePaidSameLinks(users, users', users[c].referredBy, level + 1);
      }
    }
  }

  lemma {:induction false} CascadePaidSameLinks(users: seq<Account>, users': seq<Account>, cur: Option<UserId>, level: nat)
    requires level <= CascadeLevels && SameLinks(users, users')
    ensures CascadePaid(users', cur, level) == CascadePaid(users, cur, level)
    decreases CascadeLevels - level
  {
    if level < CascadeLevels && cur.Some? && cur.value < |users| {
      CascadePaidSameLinks(users, users', users[cur.value].referredBy, level + 1);
    }
  }

  /** The five levels together pay at most 11625 (6000 + 3000 + 1500 + 750 + 375). */
  lemma {:induction false} CascadePaidBound(users: seq<Account>, cur: Option<UserId>, level: nat)
    requires level <= CascadeLevels
    ensures 0 <= CascadePaid(users, cur, level) <= CascadeCeiling(level)
    decreases CascadeLevels - level
  {
    CascadeBonusValues();
    if level < CascadeLevels && cur.Some? && cur.value < |users| {
      CascadePaidBound(users, users[cur.value].referredBy, level + 1);
    }
  }

  /** The sum of the bonuses of levels `level` to 4. */
  function CascadeCeiling(level: nat): int
    requires level <= CascadeLevels
    decreases CascadeLevels - level
  {
    if level == CascadeLevels then 0 else CascadeBonus(level) + CascadeCeiling(level + 1)
  }

  // ---------------------------------------------------------------------
  // Registration
  // ---------------------------------------------------------------------

  /** `processReferral`: list the new user on the referrer, pay the flat
      bonus, then run the cascade from the referrer. */
  function ProcessReferral(users: seq<Account>, referrer: UserId, newUser: UserId): (r: seq<Account>)
    requires referrer < |users|
    ensures |r| == |users|
    ensures r[referrer].referrals == users[referrer].referrals + [newUser]
    ensures forall i :: 0 <= i < |r| && i != referrer ==> r[i].referrals == users[i].referrals
    ensures forall i :: 0 <= i < |r| ==> r[i].referredBy == users[i].referredBy
    ensures forall i :: 0 <= i < |r| ==> r[i].username == users[i].username && r[i].telegramUserId == users[i].telegramUserId
  {
    var u := users[referrer];
    var credited := AddEarnings(u.(referrals := u.referrals + [newUser]), DirectReferralBonus);
    Cascade(users[referrer := credited], Some(referrer), 0)
  }

  /** The referrer's DailyPoint notes one more referral today, if it exists. */
  function NoteReferral(daily: map<UserId, DailyPoint>, referrer: UserId, today: int): (r: map<UserId, DailyPoint>)
    ensures r.Keys == daily.Keys
    ensures referrer !in daily ==> r == daily
    ensures forall k :: k in daily && k != referrer ==> r[k] == daily[k]
    ensures referrer in daily ==> Some(r[referrer]) == AddReferral(Some(daily[referrer]), today)
  {
    if referrer in daily then daily[referrer := AddReferral(Some(daily[referrer]), today).value] else daily
  }

  datatype RegisterError = MissingFields | InvalidReferralCode | DuplicateKey

  /** The referrer named by a referral code; an empty code names nobody. */
  function Referrer(users: seq<Account>, referralCode: string): Option<UserId>
  {
    if |referralCode| > 0 then FindByUsername(users, referralCode) else None
  }

  /** The writes of a successful `registerUser`: save the new document `a`,
      process its referral if it has one, then pay the join bonus. */
  function Join(users: seq<Account>, a: Account): (r: seq<Account>)
    requires a.referredBy.None? || a.referredBy.value < |users|
    ensures |r| == |users| + 1
    ensures forall i :: 0 <= i < |r| ==> r[i].referredBy == (users + [a])[i].referredBy
    ensures forall i :: 0 <= i < |r| ==> r[i].username == (users + [a])[i].username && r[i].telegramUserId == (users + [a])[i].telegramUserId
    ensures ReferrersPrecede(users) ==> r[|users|] == AddEarnings(a, JoinBonus)
  {
    var id := |users|;
    var saved := users + [a];
    var referred := if a.referredBy.Some? then ProcessReferral(saved, a.referredBy.value, id) else saved;
    assert ReferrersPrecede(users) ==> referred[id] == saved[id] by {
      if a.referredBy.Some? && ReferrersPrecede(users) {
        assert saved[..id] == users;
        RegisteredUserUntouched(saved, a.referredBy.value, id);
      }
    }
    referred[id := AddEarnings(referred[id], JoinBonus)]
  }

  /** `registerUser`. Guards, in order: both identifiers present; a non-empty
      referral code names an existing user; the unique indexes accept the
      new document. Then the referral is processed, the join bonus paid, and
      a fresh DailyPoint record created for the new user. */
  function RegisterUser(w: World, telegramUserId: string, username: string, referralCode: string, today: int): (r: Result<World, RegisterError>)
    ensures |telegramUserId| == 0 || |username| == 0 ==> r == Err(MissingFields)
    ensures (|telegramUserId| > 0 && |username| > 0 && |referralCode| > 0 && FindByUsername(w.users, referralCode).None?)
              ==> r == Err(InvalidReferralCode)
    ensures (&& |telegramUserId| > 0 && |username| > 0
             && (|referralCode| > 0 ==> FindByUsername(w.users, referralCode).Some?)
             && (FindByTelegramId(w.users, telegramUserId).Some? || FindByUsername(w.users, username).Some?))
              ==> r == Err(DuplicateKey)
    ensures r.Ok? <==>
              && |telegramUserId| > 0 && |username| > 0
              && (|referralCode| > 0 ==> FindByUsername(w.users, referralCode).Some?)
              && FindByTelegramId(w.users, telegramUserId).None? && FindByUsername(w.users, username).None?
    ensures r.Ok? ==>
              && r.value.users == Join(w.users, NewAccount(telegramUserId, username, Referrer(w.users, referralCode)))
              && r.value.daily == NoteReferralIf(w.daily, Referrer(w.users, referralCode), today)[|w.users| := Fresh(today)]
    ensures r.Ok? && ReferrersPrecede(w.users) ==>
              var joined := r.value.users[|w.users|];
              && joined == AddEarnings(NewAccount(telegramUserId, username, Referrer(w.users, referralCode)), JoinBonus)
              && joined.balance == 30000.0 && joined.totalEarnings == 30000
  {
    if |telegramUserId| == 0 || |username| == 0 then Err(MissingFields)
    else if |referralCode| > 0 && FindByUsername(w.users, referralCode).None? then Err(InvalidReferralCode)
    else if FindByTelegramId(w.users, telegramUserId).Some? || FindByUsername(w.users, username).Some? then Err(DuplicateKey)
    else
      var referrer := Referrer(w.users, referralCode);
      Ok(World(Join(w.users, NewAccount(telegramUserId, username, referrer)),
               NoteReferralIf(w.daily, referrer, today)[|w.users| := Fresh(today)]))
  }

  /** `addReferral` runs only when there is a referrer. */
  function NoteReferralIf(daily: map<UserId, DailyPoint>, referrer: Option<UserId>, today: int): map<UserId, DailyPoint>
  {
    if referrer.Some? then NoteReferral(daily, referrer.value, today) else daily
  }

  /** The cascade never reaches the user being registered: the walk starts at
      an earlier user and only climbs to earlier ones. */
  lemma RegisteredUserUntouched(saved: seq<Account>, referrer: UserId, id: UserId)
    requires id == |saved| - 1 && referrer < id
    requires ReferrersPrecede(saved[..id]) && saved[id].referredBy == Some(referrer)
    ensures ProcessReferral(saved, referrer, id)[id] == saved[id]
  {
    var u := saved[referrer];
    var credited := AddEarnings(u.(referrals := u.referrals + [id]), DirectReferralBonus);
    var users1 := saved[referrer := credited];
    forall i | 0 <= i < |users1| && users1[i].referredBy.Some?
      ensures users1[i].referredBy.value < id
    {
      assert users1[i].referredBy == saved[i].referredBy;
      if i < id {
        assert saved[i] == saved[..id][i];
      }
    }
    CascadeSparesEverythingAbove(users1, Some(referrer), 0, id);
  }

  /** A walk that never visits `j` and through links that never point at `j`
      leaves `j` alone. */
  lemma {:induction false} CascadeSparesEverythingAbove(users: seq<Account>, cur: Option<UserId>, level: nat, j: UserId)
    requires level <= CascadeLevels && j < |users|
    requires cur.None? || cur.value != j
    requires forall i :: 0 <= i < |users| && users[i].referredBy.Some? ==> users[i].referredBy.value < j
    ensures Cascade(users, cur, level)[j] == users[j]
    decreases CascadeLevels - level
  {
    if level < CascadeLevels && cur.Some? && cur.value < |users| {
      var i := cur.value;
      var users' := users[i := AddEarnings(users[i], CascadeBonus(level))];
      CascadeSparesEverythingAbove(users', users[i].referredBy, level + 1, j);
    }
  }

  // ---------------------------------------------------------------------
  // What a registration does to the store
  // ---------------------------------------------------------------------

  /** Without a referrer only the new user is added; nobody else changes. */
  lemma JoinWithoutReferrer(users: seq<Account>, a: Account)
    requires a.referredBy.None?
    ensures Join(users, a) == users + [AddEarnings(a, JoinBonus)]
    ensures TotalEarned(Join(users, a)) == TotalEarned(users) + a.totalEarnings + JoinBonus
  {
    assert (users + [a])[|users| := AddEarnings(a, JoinBonus)] == users + [AddEarnings(a, JoinBonus)];
    TotalEarnedAppend(users, AddEarnings(a, JoinBonus));
  }

  /** The store right after the flat referral bonus, before the cascade. */
  function Credited(users: seq<Account>, a: Account, r: UserId): seq<Account>
    requires r < |users|
  {
    var u := users[r];
    (users + [a])[r := AddEarnings(u.(referrals := u.referrals + [|users|]), DirectReferralBonus)]
  }

  /** The flat bonus keeps the links, so the walk runs over the old chain. */
  lemma CreditedLinks(users: seq<Account>, a: Account, r: UserId)
    requires ReferrersPrecede(users) && r < |users| && a.referredBy == Some(r)
    ensures ReferrersPrecede(Credited(users, a, r))
    ensures LinksExtend(users, Credited(users, a, r))
  {
  }

  /** On earlier users, the registration writes are the cascade's. */
  lemma JoinIsCascade(users: seq<Account>, a: Account, r: UserId, i: UserId)
    requires ReferrersPrecede(users) && r < |users| && a.referredBy == Some(r) && i < |users|
    ensures Join(users, a)[i] == Cascade(Credited(users, a, r), Some(r), 0)[i]
  {
  }

  /** The referrer lists the new user and gains the flat bonus plus the
      level-0 cascade bonus, 15000 + 6000. */
  lemma JoinCreditsReferrer(users: seq<Account>, a: Account, r: UserId)
    requires ReferrersPrecede(users) && r < |users| && a.referredBy == Some(r)
    ensures Join(users, a)[r] == AddEarnings(users[r].(referrals := users[r].referrals + [|users|]), 21000)
  {
    var users1 := Credited(users, a, r);
    CreditedLinks(users, a, r);
    JoinIsCascade(users, a, r, r);
    CascadePaysChain(users1, Some(r), 0, 0, r);
    CascadeBonusValues();
    AddEarningsAdditive(users[r].(referrals := users[r].referrals + [|users|]), DirectReferralBonus, CascadeBonus(0));
  }

  /** The user `k` steps above the referrer (k = 1..4) gains the level-k bonus. */
  lemma JoinCreditsAncestor(users: seq<Account>, a: Account, r: UserId, k: nat, i: UserId)
    requires ReferrersPrecede(users) && r < |users| && a.referredBy == Some(r)
    requires 1 <= k < CascadeLevels && Chain(users, Some(r), k) == Some(i)
    ensures Join(users, a)[i] == AddEarnings(users[i], CascadeBonus(k))
  {
    var users1 := Credited(users, a, r);
    CreditedLinks(users, a, r);
    JoinIsCascade(users, a, r, i);
    ChainExtends(users, users1, Some(r), k);
    ChainDescends(users, Some(r), k);
    assert i < r;
    assert users1[i] == users[i];
    CascadePaysChain(users1, Some(r), 0, k, i);
  }

  /** Every earlier user off the referrer's five-level chain keeps its record. */
  lemma JoinSparesOthers(users: seq<Account>, a: Account, r: UserId, i: UserId)
    requires ReferrersPrecede(users) && r < |users| && a.referredBy == Some(r) && i < |users|
    requires forall k: nat :: k < CascadeLevels ==> Chain(users, Some(r), k) != Some(i)
    ensures Join(users, a)[i] == users[i]
  {
    var users1 := Credited(users, a, r);
    CreditedLinks(users, a, r);
    JoinIsCascade(users, a, r, i);
    forall k: nat | k < CascadeLevels
      ensures Chain(users1, Some(r), k) != Some(i)
    {
      ChainExtends(users, users1, Some(r), k);
    }
    CascadeSparesOthers(users1, Some(r), 0, i);
  }

  /** The store-wide lifetime total rises by the join bonus, the flat bonus
      and what the cascade paid: at most 30000 + 15000 + 11625 = 56625. */
  lemma JoinTotal(users: seq<Account>, a: Account, r: UserId)
    requires ReferrersPrecede(users) && r < |users| && a.referredBy == Some(r)
    ensures TotalEarned(Join(users, a)) ==
              TotalEarned(users) + a.totalEarnings + JoinBonus + DirectReferralBonus + CascadePaid(users, Some(r), 0)
    ensures CascadePaid(users, Some(r), 0) <= 11625
  {
    var id := |users|;
    var saved := users + [a];
    var users1 := Credited(users, a, r);
    var referred := Cascade(users1, Some(r), 0);
    assert Join(users, a) == referred[id := AddEarnings(referred[id], JoinBonus)];
    CreditedLinks(users, a, r);
    TotalEarnedAppend(users, a);
    TotalEarnedUpdate(saved, r, users1[r]);
    CascadeTotal(users1, Some(r), 0);
    CascadePaidExtends(users, users1, Some(r), 0);
    TotalEarnedCredit(referred, id, JoinBonus);
    CascadePaidBound(users, Some(r), 0);
    CascadeBonusValues();
  }

  /** Registration keeps referrers before their referrals and the usernames
      and Telegram ids unique. */
  lemma RegisterPreservesValid(w: World, telegramUserId: string, username: string, referralCode: string, today: int)
    requires Valid(w.users)
    requires RegisterUser(w, telegramUserId, username, referralCode, today).Ok?
    ensures Valid(RegisterUser(w, telegramUserId, username, referralCode, today).value.users)
  {
  }

  /** The worked example: "alice" registers with no code, then "bob" with
      code "alice". Bob holds the join bonus; alice holds her join bonus plus
      15000 plus 6000 and lists bob. */
  lemma AliceThenBob(today: int)
    ensures var w1 := RegisterUser(World([], map[]), "1001", "alice", "", today);
            && w1.Ok?
            && w1.value.users[0].balance == 30000.0
            && var w2 := RegisterUser(w1.value, "1002", "bob", "alice", today);
               && w2.Ok?
               && w2.value.users[0].balance == 51000.0
               && w2.value.users[0].referrals == [1]
               && w2.value.users[1].balance == 30000.0
               && w2.value.users[1].referredBy == Some(0)
  {
    var alice := NewAccount("1001", "alice", None);
    var r1 := RegisterUser(World([], map[]), "1001", "alice", "", today);
    assert r1.Ok?;
    JoinWithoutReferrer([], alice);
    var users1 := [AddEarnings(alice, JoinBonus)];
    assert r1.value.users == users1;
    assert users1[0].username == "alice" && users1[0].telegramUserId == "1001";
    assert FindByUsername(users1, "alice") == Some(0);
    assert "1002" != "1001" && "bob" != "alice";
    assert FindByTelegramId(users1, "1002").None? && FindByUsername(users1, "bob").None?;
    var r2 := RegisterUser(r1.value, "1002", "bob", "alice", today);
    assert r2.Ok?;
    var bob := NewAccount("1002", "bob", Some(0));
    assert Referrer(users1, "alice") == Some(0);
    assert r2.value.users == Join(users1, bob);
    JoinCreditsReferrer(users1, bob, 0);
  }
}
