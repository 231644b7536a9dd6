/** Fixed-term staking: a user escrows part of the balance for 3, 15 or 45
    days; a matured stake can be claimed with interest, and any active stake
    can be unstaked, with interest only once it has matured. */
module Staking {
  import opened Wrappers
  import opened Accounts
  import opened Clock
  import Seqs

  datatype StakeStatus = Active | Claimed | Unstaked

  /** A stake document. Only `status` changes after creation. */
  datatype Stake = Stake(
    user: UserId,
    amount: real,
    period: int,
    interestRate: real,
    startDate: int,
    endDate: int,
    status: StakeStatus)

  datatype StakeError = InsufficientBalance | InvalidPeriod | StakeNotFound | NotActive | NotMatured

  /** The user together with the stake collection (a stake's id is its index). */
  datatype Staked = Staked(account: Account, book: seq<Stake>)

  /** What a settled stake paid into the balance. */
  datatype Payout = Payout(principal: real, interest: real, totalAmount: real)

  /** The interest rate of each admissible period, in days. */
  function InterestRate(period: int): (r: Option<real>)
    ensures r.Some? <==> period == 3 || period == 15 || period == 45
    ensures r.Some? ==> 0.0 < r.value < 1.0
  {
    if period == 3 then Some(0.03)
    else if period == 15 then Some(0.10)
    else if period == 45 then Some(0.35)
    else None
  }

  /** `stake`: the balance check comes first, then the period check; on
      success the amount leaves the balance and a new active stake maturing
      `period` days from now is recorded and listed on the user. */
  function CreateStake(a: Account, owner: UserId, book: seq<Stake>, amount: real, period: int, now: int): (r: Result<Staked, StakeError>)
    ensures a.balance < amount ==> r == Err(InsufficientBalance)
    ensures a.balance >= amount && InterestRate(period).None? ==> r == Err(InvalidPeriod)
    ensures r.Ok? <==> a.balance >= amount && InterestRate(period).Some?
    ensures r.Ok? ==> r.value.account.balance == a.balance - amount
    ensures r.Ok? ==> r.value.account.stakes == a.stakes + [|book|]
    ensures r.Ok? ==> r.value.account == a.(balance := r.value.account.balance, stakes := r.value.account.stakes)
    ensures r.Ok? ==> r.value.book == book + [Stake(owner, amount, period, InterestRate(period).value, now, now + period * 86400000, Active)]
  {
    if a.balance < amount then Err(InsufficientBalance)
    else
      match InterestRate(period)
      case None => Err(InvalidPeriod)
      case Some(rate) =>
        var s := Stake(owner, amount, period, rate, now, now + period * MsPerDay, Active);
        Ok(Staked(a.(stakes := a.stakes + [|book|], balance := a.balance - amount), book + [s]))
  }

  /** The stake exists and is listed on the user. */
  predicate Holds(a: Account, book: seq<Stake>, id: StakeId)
  {
    id < |book| && id in a.stakes
  }

  /** `getActiveStakes`: the user's listed stakes still active. */
  function ActiveStakes(a: Account, book: seq<Stake>): (r: set<StakeId>)
    ensures forall id: StakeId :: id in r <==> Holds(a, book, id) && book[id].status == Active
  {
    set id | id in a.stakes && id < |book| && book[id].status == Active
  }

  /** `getClaimableStakes`: the user's active stakes that have matured. */
  function ClaimableStakes(a: Account, book: seq<Stake>, now: int): (r: set<StakeId>)
    ensures r <= ActiveStakes(a, book)
    ensures forall id: StakeId :: id in r <==> Holds(a, book, id) && book[id].status == Active && book[id].endDate <= now
  {
    set id | id in ActiveStakes(a, book) && book[id].endDate <= now
  }

  /** The guards `claimStake` and `unstake` share: found and listed, then active. */
  function CheckActive(a: Account, book: seq<Stake>, id: StakeId): (r: Result<Stake, StakeError>)
    ensures !Holds(a, book, id) ==> r == Err(StakeNotFound)
    ensures Holds(a, book, id) && book[id].status != Active ==> r == Err(NotActive)
    ensures r.Ok? <==> id in ActiveStakes(a, book)
    ensures r.Ok? ==> r.value == book[id]
  {
    if !Holds(a, book, id) then Err(StakeNotFound)
    else if book[id].status != Active then Err(NotActive)
    else Ok(book[id])
  }

  /** Pay `principal + interest`, mark the stake, and drop it from the user's list. */
  function Settle(a: Account, book: seq<Stake>, id: StakeId, interest: real, status: StakeStatus): (r: (Staked, Payout))
    requires id < |book|
  {
    var s := book[id];
    var total := s.amount + interest;
    (Staked(a.(balance := a.balance + total, stakes := Seqs.RemoveAll(a.stakes, id)), book[id := s.(status := status)]),
     Payout(s.amount, interest, total))
  }

  /** `claimStake`: only a matured active stake of the user can be claimed;
      it pays its principal plus `amount × rate`. */
  function ClaimStake(a: Account, book: seq<Stake>, id: StakeId, now: int): (r: Result<(Staked, Payout), StakeError>)
    ensures !Holds(a, book, id) ==> r == Err(StakeNotFound)
    ensures Holds(a, book, id) && book[id].status != Active ==> r == Err(NotActive)
    ensures id in ActiveStakes(a, book) && now < book[id].endDate ==> r == Err(NotMatured)
    ensures r.Ok? <==> id in ClaimableStakes(a, book, now)
    ensures r.Ok? ==>
              var s := book[id];
              var st, pay := r.value.0, r.value.1;
              && pay == Payout(s.amount, s.amount * s.interestRate, s.amount + s.amount * s.interestRate)
              && st.account.balance == a.balance + pay.totalAmount
              && st.account.stakes == Seqs.RemoveAll(a.stakes, id)
              && st.account == a.(balance := st.account.balance, stakes := st.account.stakes)
              && st.book == book[id := s.(status := Claimed)]
  {
    match CheckActive(a, book, id)
    case Err(e) => Err(e)
    case Ok(s) =>
      if now < s.endDate then Err(NotMatured)
      else Ok(Settle(a, book, id, s.amount * s.interestRate, Claimed))
  }

  /** `unstake`: any active stake of the user can be withdrawn; the interest
      is paid only when it has matured. */
  function Unstake(a: Account, book: seq<Stake>, id: StakeId, now: int): (r: Result<(Staked, Payout), StakeError>)
    ensures !Holds(a, book, id) ==> r == Err(StakeNotFound)
    ensures Holds(a, book, id) && book[id].status != Active ==> r == Err(NotActive)
    ensures r.Ok? <==> id in ActiveStakes(a, book)
    ensures r.Ok? ==>
              var s := book[id];
              var st, pay := r.value.0, r.value.1;
              && pay.principal == s.amount
              && pay.interest == (if now >= s.endDate then s.amount * s.interestRate else 0.0)
              && st.account.balance == a.balance + s.amount + pay.interest
              && st.account.stakes == Seqs.RemoveAll(a.stakes, id)
              && st.account == a.(balance := st.account.balance, stakes := st.account.stakes)
              && st.book == book[id := s.(status := Unstaked)]
  {
    match CheckActive(a, book, id)
    case Err(e) => Err(e)
    case Ok(s) =>
      var interest := if now >= s.endDate then s.amount * s.interestRate else 0.0;
      Ok(Settle(a, book, id, interest, Unstaked))
  }

  /** Claiming and unstaking agree on a matured stake. */
  lemma ClaimAndUnstakeAgreeAtMaturity(a: Account, book: seq<Stake>, id: StakeId, now: int)
    requires id in ClaimableStakes(a, book, now)
    ensures Unstake(a, book, id, now).Ok? && ClaimStake(a, book, id, now).Ok?
    ensures Unstake(a, book, id, now).value.1 == ClaimStake(a, book, id, now).value.1
    ensures Unstake(a, book, id, now).value.0.account == ClaimStake(a, book, id, now).value.0.account
  {
  }

  /** Staking and unstaking before maturity gives the user back exactly the
      balance and stake list they had. */
  lemma {:induction false} StakeThenUnstakeEarlyRestores(a: Account, owner: UserId, book: seq<Stake>, amount: real, period: int, now: int, t: int)
    requires CreateStake(a, owner, book, amount, period, now).Ok?
    requires |book| !in a.stakes
    requires t < now + period * 86400000
    ensures var st := CreateStake(a, owner, book, amount, period, now).value;
            var u := Unstake(st.account, st.book, |book|, t);
            u.Ok? && u.value.1.interest == 0.0 && u.value.0.account == a
  {
    var st := CreateStake(a, owner, book, amount, period, now).value;
    var s := st.book[|book|];
    assert s.status == Active && s.amount == amount && s.endDate == now + period * 86400000;
    assert |book| in st.account.stakes;
    assert |book| in ActiveStakes(st.account, st.book);
    var u := Unstake(st.account, st.book, |book|, t);
    assert u.Ok?;
    assert u.value.1.interest == 0.0;
    assert st.account.stakes == a.stakes + [|book|];
    assert u.value.0.account.stakes == Seqs.RemoveAll<StakeId>(st.account.stakes, |book|);
    Seqs.RemoveAllAppended<StakeId>(a.stakes, |book|);
    assert u.value.0.account.stakes == a.stakes;
    assert u.value.0.account.balance == a.balance;
  }

  /** Staking and claiming at maturity leaves the user richer by exactly the
      interest of the chosen period, with the stake list restored. */
  lemma {:induction false} StakeThenClaimAtMaturityPaysInterest(a: Account, owner: UserId, book: seq<Stake>, amount: real, period: int, now: int, t: int)
    requires CreateStake(a, owner, book, amount, period, now).Ok?
    requires |book| !in a.stakes
    requires t >= now + period * 86400000
    ensures var st := CreateStake(a, owner, book, amount, period, now).value;
            var c := ClaimStake(st.account, st.book, |book|, t);
            && c.Ok?
            && c.value.1.interest == amount * InterestRate(period).value
            && c.value.0.account == a.(balance := a.balance + amount * InterestRate(period).value)
  {
    // Fix the rate to a literal so that `amount × rate` stays linear.
    if period == 3 {
      ClaimFreshStakeAtMaturity(a, owner, book, amount, period, now, t, 0.03);
    } else if period == 15 {
      ClaimFreshStakeAtMaturity(a, owner, book, amount, period, now, t, 0.10);
    } else {
      ClaimFreshStakeAtMaturity(a, owner, book, amount, period, now, t, 0.35);
    }
  }

  /** The stake just created is claimable from its end date on. */
  lemma FreshStakeIsClaimable(a: Account, owner: UserId, book: seq<Stake>, amount: real, period: int, now: int, t: int, rate: real)
    requires CreateStake(a, owner, book, amount, period, now).Ok?
    requires InterestRate(period) == Some(rate)
    requires t >= now + period * 86400000
    ensures var st := CreateStake(a, owner, book, amount, period, now).value;
            && |book| in ClaimableStakes(st.account, st.book, t)
            && st.book[|book|].amount == amount && st.book[|book|].interestRate == rate
  {
    var st := CreateStake(a, owner, book, amount, period, now).value;
    var s := st.book[|book|];
    assert s.status == Active && s.amount == amount && s.interestRate == rate && s.endDate == now + period * 86400000;
    assert |book| in st.account.stakes;
    assert |book| in ActiveStakes(st.account, st.book);
  }

  lemma {:induction false} ClaimFreshStakeAtMaturity(a: Account, owner: UserId, book: seq<Stake>, amount: real, period: int, now: int, t: int, rate: real)
    requires CreateStake(a, owner, book, amount, period, now).Ok?
    requires InterestRate(period) == Some(rate)
    requires |book| !in a.stakes
    requires t >= now + period * 86400000
    ensures var st := CreateStake(a, owner, book, amount, period, now).value;
            var c := ClaimStake(st.account, st.book, |book|, t);
            && c.Ok?
            && c.value.1.interest == amount * rate
            && c.value.0.account == a.(balance := a.balance + amount * rate)
  {
    var st := CreateStake(a, owner, book, amount, period, now).value;
    FreshStakeIsClaimable(a, owner, book, amount, period, now, t, rate);
    Seqs.RemoveAllAppended<StakeId>(a.stakes, |book|);
  }

  /** A stake stays claimable once it has matured, until it is settled. */
  lemma ClaimableStaysClaimable(a: Account, book: seq<Stake>, now: int, later: int)
    requires now <= later
    ensures ClaimableStakes(a, book, now) <= ClaimableStakes(a, book, later)
  {
  }

  /** A claimed stake can be neither claimed nor unstaked again. */
  lemma ClaimedStakeIsFinal(a: Account, book: seq<Stake>, id: StakeId, now: int, later: int)
    requires ClaimStake(a, book, id, now).Ok?
    ensures var st := ClaimStake(a, book, id, now).value.0;
            ClaimStake(st.account, st.book, id, later) == Err(StakeNotFound)
            && Unstake(st.account, st.book, id, later) == Err(StakeNotFound)
  {
  }

  /** An unstaked stake can be neither claimed nor unstaked again. */
  lemma SettledStakeIsFinal(a: Account, book: seq<Stake>, id: StakeId, now: int, later: int)
    requires Unstake(a, book, id, now).Ok?
    ensures var st := Unstake(a, book, id, now).value.0;
            ClaimStake(st.account, st.book, id, later) == Err(StakeNotFound)
            && Unstake(st.account, st.book, id, later) == Err(StakeNotFound)
  {
  }
}
