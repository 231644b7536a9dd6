/** The referral leaderboard: users ranked by referral count, each ranked
    user reclassified, and the result grouped by classification. */
module Leaderboard {
  import opened Wrappers
  import opened Accounts
  import opened Store
  import opened Classification
  import Seqs

  /** What the ranking looks at: a user's id and referral count. */
  datatype Entry = Entry(id: UserId, count: nat)

  /** `e` sorts ahead of `f`: more referrals first; among equal counts the
      sort is stable, so the earlier-registered user comes first. */
  predicate Before(e: Entry, f: Entry)
  {
    e.count > f.count || (e.count == f.count && e.id < f.id)
  }

  lemma BeforeTotal(e: Entry, f: Entry)
    ensures e == f || Before(e, f) || Before(f, e)
    ensures !(Before(e, f) && Before(f, e))
  {
  }

  predicate Sorted(s: seq<Entry>)
  {
    forall i, j :: 0 <= i < j < |s| ==> Before(s[i], s[j])
  }

  /** The entries of the users in `ids`, in the order `find` returns them. */
  function EntriesOf(users: seq<Account>, ids: seq<UserId>): (r: seq<Entry>)
    requires forall k :: 0 <= k < |ids| ==> ids[k] < |users|
    ensures |r| == |ids|
    ensures forall k :: 0 <= k < |r| ==> r[k] == Entry(ids[k], |users[ids[k]].referrals|)
  {
    if |ids| == 0 then [] else [Entry(ids[0], |users[ids[0]].referrals|)] + EntriesOf(users, ids[1..])
  }

  /** Insert `x` into a sorted sequence. */
  function Insert(x: Entry, s: seq<Entry>): (r: seq<Entry>)
    ensures multiset(r) == multiset(s) + multiset{x}
    ensures Sorted(s) && x !in s ==> Sorted(r)
  {
    if |s| == 0 then [x]
    else if Before(x, s[0]) then
      assert Sorted(s) ==> Sorted([x] + s) by {
        if Sorted(s) {
          HeadBeforeAll(s);
          assert forall e :: e in s ==> e == s[0] || e in s[1..];
          ConsSorted(x, s);
        }
      }
      [x] + s
    else
      var rest := Insert(x, s[1..]);
      assert s == [s[0]] + s[1..];
      assert Sorted(s) && x !in s ==> Sorted([s[0]] + rest) by {
        if Sorted(s) && x !in s {
          BeforeTotal(x, s[0]);
          HeadBeforeAll(s);
          forall e | e in rest
            ensures Before(s[0], e)
          {
            assert e in multiset(rest);
            assert e == x || e in multiset(s[1..]);
          }
          ConsSorted(s[0], rest);
        }
      }
      [s[0]] + rest
  }

  /** In a sorted sequence the head sorts ahead of the whole tail, and the
      tail is sorted. */
  lemma HeadBeforeAll(s: seq<Entry>)
    requires Sorted(s) && |s| > 0
    ensures forall e :: e in s[1..] ==> Before(s[0], e)
    ensures Sorted(s[1..])
  {
    forall e | e in s[1..]
      ensures Before(s[0], e)
    {
      var j :| 0 <= j < |s[1..]| && s[1..][j] == e;
      assert s[1 + j] == e;
    }
  }

  /** A head ahead of every member of a sorted tail makes a sorted sequence. */
  lemma ConsSorted(h: Entry, rest: seq<Entry>)
    requires Sorted(rest) && forall e :: e in rest ==> Before(h, e)
    ensures Sorted([h] + rest)
  {
    forall i, j | 0 <= i < j < |[h] + rest|
      ensures Before(([h] + rest)[i], ([h] + rest)[j])
    {
      if i == 0 {
        assert ([h] + rest)[j] == rest[j - 1] && rest[j - 1] in rest;
      } else {
        assert ([h] + rest)[i] == rest[i - 1] && ([h] + rest)[j] == rest[j - 1];
      }
    }
  }

  /** Insertion sort under `Before`. */
  function Sort(s: seq<Entry>): (r: seq<Entry>)
    ensures multiset(r) == multiset(s)
    ensures Seqs.NoDuplicates(s) ==> Sorted(r)
  {
    if |s| == 0 then []
    else
      var rest := Sort(s[1..]);
      assert s == [s[0]] + s[1..];
      assert Seqs.NoDuplicates(s) ==> s[0] !in rest by {
        if Seqs.NoDuplicates(s) {
          assert forall j :: 0 <= j < |s[1..]| ==> s[1..][j] == s[1 + j] != s[0];
          assert s[0] !in multiset(s[1..]);
        }
      }
      Insert(s[0], rest)
  }

  /** Two sorted sequences holding the same entries are the same sequence:
      the ranking is fully determined by the counts and the ids. */
  lemma {:induction false} SortedUnique(s: seq<Entry>, t: seq<Entry>)
    requires Sorted(s) && Sorted(t) && multiset(s) == multiset(t)
    ensures s == t
    decreases |s|
  {
    if |s| > 0 {
      SameHead(s, t);
      HeadBeforeAll(s);
      HeadBeforeAll(t);
      SameTail(s, t);
      SortedUnique(s[1..], t[1..]);
      assert s == [s[0]] + s[1..] && t == [t[0]] + t[1..];
    }
  }

  /** Sorted arrangements of the same entries start alike. */
  lemma SameHead(s: seq<Entry>, t: seq<Entry>)
    requires Sorted(s) && Sorted(t) && multiset(s) == multiset(t) && |s| > 0
    ensures |t| > 0 && s[0] == t[0]
  {
    assert |t| == |multiset(t)| == |multiset(s)| == |s|;
    assert s[0] in multiset(t) && t[0] in multiset(s);
    SortedHead(t, s[0]);
    SortedHead(s, t[0]);
    BeforeTotal(s[0], t[0]);
  }

  /** Dropping the same head from two arrangements of the same entries. */
  lemma SameTail(s: seq<Entry>, t: seq<Entry>)
    requires multiset(s) == multiset(t) && |s| > 0 && |t| > 0 && s[0] == t[0]
    ensures multiset(s[1..]) == multiset(t[1..])
  {
    assert s == [s[0]] + s[1..] && t == [t[0]] + t[1..];
    assert multiset(s) == multiset{s[0]} + multiset(s[1..]);
    assert multiset(t) == multiset{t[0]} + multiset(t[1..]);
    assert multiset(s[1..]) == multiset(s) - multiset{s[0]};
    assert multiset(t[1..]) == multiset(t) - multiset{t[0]};
  }

  /** The head of a sorted sequence sorts ahead of every other member. */
  lemma SortedHead(s: seq<Entry>, e: Entry)
    requires Sorted(s) && e in s
    ensures e == s[0] || Before(s[0], e)
  {
  }

  /** The ids `find(query)` returns, in registration order: every user, or
      those holding one role. */
  function Selected(users: seq<Account>, role: Option<Role>): (ids: seq<UserId>)
    ensures forall k :: 0 <= k < |ids| ==> ids[k] < |users|
    ensures forall k, l :: 0 <= k < l < |ids| ==> ids[k] < ids[l]
    ensures forall i :: 0 <= i < |users| ==> (i in ids <==> role.None? || users[i].role == role.value)
    decreases |users|
  {
    if |users| == 0 then []
    else
      var n := |users| - 1;
      var init := Selected(users[..n], role);
      assert forall i :: 0 <= i < n ==> users[..n][i] == users[i];
      if role.None? || users[n].role == role.value then init + [n] else init
  }

  /** The entry of a user `find(query)` returns. */
  predicate Listed(users: seq<Account>, role: Option<Role>, e: Entry)
  {
    e.id < |users| && e.count == |users[e.id].referrals| && (role.None? || users[e.id].role == role.value)
  }

  lemma EntriesOfSelected(users: seq<Account>, role: Option<Role>)
    ensures var es := EntriesOf(users, Selected(users, role));
            Seqs.NoDuplicates(es) && forall e :: e in es <==> Listed(users, role, e)
  {
    var ids := Selected(users, role);
    var es := EntriesOf(users, ids);
    forall i, j | 0 <= i < j < |es|
      ensures es[i] != es[j]
    {
      assert es[i].id == ids[i] < ids[j] == es[j].id;
    }
    forall e | e in es
      ensures Listed(users, role, e)
    {
      var k :| 0 <= k < |es| && es[k] == e;
      assert ids[k] in ids;
    }
    forall e | Listed(users, role, e)
      ensures e in es
    {
      var k :| 0 <= k < |ids| && ids[k] == e.id;
      assert es[k] == e;
    }
  }

  /** The entries of the users `find(query)` returns, sorted. */
  function Ranked(users: seq<Account>, role: Option<Role>): (r: seq<Entry>)
    ensures Sorted(r)
    ensures forall e :: e in r <==> Listed(users, role, e)
    ensures forall k :: 0 <= k < |r| ==> Listed(users, role, r[k])
    ensures forall k, l :: 0 <= k < l < |r| ==> r[k].count >= r[l].count
  {
    var es := EntriesOf(users, Selected(users, role));
    assert Seqs.NoDuplicates(es) && forall e :: e in es <==> Listed(users, role, e) by {
      EntriesOfSelected(users, role);
    }
    var r := Sort(es);
    SameMembers(r, es);
    r
  }

  /** Two arrangements of the same multiset hold the same entries. */
  lemma SameMembers(a: seq<Entry>, b: seq<Entry>)
    requires multiset(a) == multiset(b)
    ensures forall e :: e in a <==> e in b
  {
    forall e
      ensures e in a <==> e in b
    {
      assert e in a <==> e in multiset(a);
      assert e in b <==> e in multiset(b);
    }
  }

  /** Any sorted arrangement of exactly the selected users is the ranking. */
  lemma RankedIsTheSortedSelection(users: seq<Account>, role: Option<Role>, t: seq<Entry>)
    requires Sorted(t)
    requires forall e :: e in t <==> Listed(users, role, e)
    ensures t == Ranked(users, role)
  {
    var r := Ranked(users, role);
    forall e
      ensures multiset(t)[e] == multiset(r)[e]
    {
      SortedMultiplicity(t, e);
      SortedMultiplicity(r, e);
    }
    assert multiset(t) == multiset(r);
    SortedUnique(t, r);
  }

  /** A sorted sequence holds each entry at most once. */
  lemma {:induction false} SortedMultiplicity(s: seq<Entry>, e: Entry)
    requires Sorted(s)
    ensures multiset(s)[e] == if e in s then 1 else 0
  {
    if |s| > 0 {
      assert s == [s[0]] + s[1..];
      SortedMultiplicity(s[1..], e);
      assert forall j :: 0 <= j < |s[1..]| ==> s[1..][j] == s[1 + j] != s[0];
    }
  }

  /** The number of selected users ranked ahead of entry `e`. */
  function CountAhead(users: seq<Account>, role: Option<Role>, e: Entry): nat
  {
    |set f | f in Ranked(users, role) && Before(f, e)|
  }

  /** A user's position in the ranking is the number of selected users with
      more referrals, or as many and registered earlier. */
  lemma PositionIsCountAhead(users: seq<Account>, role: Option<Role>, e: Entry)
    requires Listed(users, role, e)
    ensures CountAhead(users, role, e) < |Ranked(users, role)|
    ensures Ranked(users, role)[CountAhead(users, role, e)] == e
  {
    var r := Ranked(users, role);
    var p := PositionOf(r, e);
    SortedPosition(r, p);
  }

  /** In a sorted sequence, the entries ahead of position `p` are exactly
      the first `p`. */
  lemma SortedPosition(r: seq<Entry>, p: nat)
    requires Sorted(r) && p < |r|
    ensures |set f | f in r && Before(f, r[p])| == p
  {
    var ahead := set f | f in r && Before(f, r[p]);
    var prefix := set k | 0 <= k < p :: r[k];
    forall f | f in ahead
      ensures f in prefix
    {
      var k :| 0 <= k < |r| && r[k] == f;
      BeforeTotal(f, r[p]);
      assert k < p;
    }
    assert ahead == prefix;
    DistinctPrefixCard(r, p);
  }

  lemma {:induction false} DistinctPrefixCard(r: seq<Entry>, p: nat)
    requires Sorted(r) && p <= |r|
    ensures |set k | 0 <= k < p :: r[k]| == p
    decreases p
  {
    if p > 0 {
      DistinctPrefixCard(r, p - 1);
      var before := set k | 0 <= k < p - 1 :: r[k];
      assert (set k | 0 <= k < p :: r[k]) == before + {r[p - 1]};
      assert forall k :: 0 <= k < p - 1 ==> Before(r[k], r[p - 1]);
      assert r[p - 1] !in before;
    }
  }

  /** One line of the leaderboard. */
  datatype Row = Row(
    username: string,
    role: Role,
    referralCount: nat,
    rank: nat,
    pointsAwarded: int,
    balance: real,
    totalEarnings: int)

  /** The line of the user ranked at position `p`, after reclassifying it. */
  function RowAt(users: seq<Account>, r: seq<Entry>, p: nat): (row: Row)
    requires p < |r| && r[p].id < |users|
    ensures row.rank == p + 1
    ensures row.role == Classify(|users[r[p].id].referrals|)
  {
    var u := UpdateUserClassification(users[r[p].id]);
    Row(users[r[p].id].username, u.newClassification, |users[r[p].id].referrals|, p + 1,
        u.pointsAwarded, u.account.balance, u.account.totalEarnings)
  }

  function Rows(users: seq<Account>, r: seq<Entry>, from: nat): (rows: seq<Row>)
    requires from <= |r| && forall k :: 0 <= k < |r| ==> r[k].id < |users|
    ensures |rows| == |r| - from
    ensures forall k :: 0 <= k < |rows| ==> rows[k] == RowAt(users, r, from + k)
    decreases |r| - from
  {
    if from == |r| then [] else [RowAt(users, r, from)] + Rows(users, r, from + 1)
  }

  /** The rows holding classification `c`, in rank order. */
  function Group(rows: seq<Row>, c: Role): (g: seq<Row>)
    ensures forall x :: x in g <==> x in rows && x.role == c
    ensures RanksIncrease(rows) ==> RanksIncrease(g)
  {
    if |rows| == 0 then []
    else
      var rest := Group(rows[1..], c);
      if rows[0].role == c then
        assert RanksIncrease(rows) ==> RanksIncrease([rows[0]] + rest) by {
          if RanksIncrease(rows) {
            assert forall x :: x in rows[1..] ==> rows[0].rank < x.rank;
            assert forall l :: 0 <= l < |rest| ==> rest[l] in rows[1..];
          }
        }
        [rows[0]] + rest
      else rest
  }

  predicate RanksIncrease(rows: seq<Row>)
  {
    forall k, l :: 0 <= k < l < |rows| ==> rows[k].rank < rows[l].rank
  }

  datatype Board = Board(promoters: seq<Row>, influencers: seq<Row>, ambassadors: seq<Row>)

  /** No user is ranked twice. */
  lemma RankedIdsDistinct(users: seq<Account>, role: Option<Role>)
    ensures var r := Ranked(users, role);
            forall k, l :: 0 <= k < l < |r| ==> r[k].id != r[l].id
  {
    var r := Ranked(users, role);
    forall k, l | 0 <= k < l < |r|
      ensures r[k].id != r[l].id
    {
      assert Before(r[k], r[l]);
    }
  }

  /** The saves the ranking loop makes, one ranked user after another: each
      ranked document is replaced by its reclassified version. */
  function SaveRanked(users: seq<Account>, r: seq<Entry>): (saved: seq<Account>)
    requires forall k :: 0 <= k < |r| ==> r[k].id < |users|
    requires forall k, l :: 0 <= k < l < |r| ==> r[k].id != r[l].id
    ensures |saved| == |users|
    ensures forall k :: 0 <= k < |r| ==> saved[r[k].id] == UpdateUserClassification(users[r[k].id]).account
    ensures forall j :: 0 <= j < |users| && Unranked(r, j) ==> saved[j] == users[j]
    decreases |r|
  {
    if |r| == 0 then users
    else
      var i := r[0].id;
      var users1 := users[i := UpdateUserClassification(users[i]).account];
      var rest := r[1..];
      assert forall k :: 0 <= k < |rest| ==> rest[k] == r[k + 1];
      assert Unranked(rest, i);
      assert forall j :: Unranked(r, j) ==> Unranked(rest, j) by {
        forall j | Unranked(r, j)
          ensures Unranked(rest, j)
        {
          assert forall k :: 0 <= k < |rest| ==> rest[k].id == r[k + 1].id != j;
        }
      }
      SaveRanked(users1, rest)
  }

  /** No entry of `r` belongs to user `j`. */
  predicate Unranked(r: seq<Entry>, j: UserId)
  {
    forall k :: 0 <= k < |r| ==> r[k].id != j
  }

  /** Whether `find(query)` returns user `j`. */
  predicate Picked(users: seq<Account>, role: Option<Role>, j: UserId)
    requires j < |users|
  {
    role.None? || users[j].role == role.value
  }

  /** `getLeaderboard`: select (optionally by role), rank, reclassify and
      save each ranked user, and group the lines by classification. The
      result is the board and the user collection after the saves. */
  function GetLeaderboard(users: seq<Account>, role: Option<Role>): (out: (Board, seq<Account>))
    ensures forall x :: x in out.0.promoters <==> x in Rows(users, Ranked(users, role), 0) && x.role == Promoter
    ensures forall x :: x in out.0.influencers <==> x in Rows(users, Ranked(users, role), 0) && x.role == Influencer
    ensures forall x :: x in out.0.ambassadors <==> x in Rows(users, Ranked(users, role), 0) && x.role == Ambassador
    ensures |out.1| == |users|
    ensures forall j :: 0 <= j < |users| && Picked(users, role, j) ==> out.1[j] == UpdateUserClassification(users[j]).account
    ensures forall j :: 0 <= j < |users| && !Picked(users, role, j) ==> out.1[j] == users[j]
  {
    var r := Ranked(users, role);
    var rows := Rows(users, r, 0);
    RankedIdsDistinct(users, role);
    var saved := SaveRanked(users, r);
    forall j | 0 <= j < |users| && Picked(users, role, j)
      ensures saved[j] == UpdateUserClassification(users[j]).account
    {
      var e := Entry(j, |users[j].referrals|);
      assert Listed(users, role, e);
      var k :| 0 <= k < |r| && r[k] == e;
    }
    forall j | 0 <= j < |users| && !Picked(users, role, j)
      ensures saved[j] == users[j]
    {
      assert Unranked(r, j) by {
        forall k | 0 <= k < |r|
          ensures r[k].id != j
        {
          assert Listed(users, role, r[k]);
        }
      }
    }
    (Board(Group(rows, Promoter), Group(rows, Influencer), Group(rows, Ambassador)), saved)
  }

  /** Only users the first query saved can be picked by the same query on
      the saved collection. */
  lemma PickedAgainWasPicked(users: seq<Account>, role: Option<Role>, j: UserId)
    requires j < |users|
    ensures Picked(GetLeaderboard(users, role).1, role, j) ==> Picked(users, role, j)
  {
  }

  /** Loading the board twice pays each award once: the second load awards
      nothing on any line and saves nothing new. */
  lemma SecondLoadAwardsNothing(users: seq<Account>, role: Option<Role>)
    ensures var saved := GetLeaderboard(users, role).1;
            var rows := Rows(saved, Ranked(saved, role), 0);
            forall k :: 0 <= k < |rows| ==> rows[k].pointsAwarded == 0
  {
    var saved := GetLeaderboard(users, role).1;
    SavedAreSettled(users, role);
    var r := Ranked(saved, role);
    var rows := Rows(saved, r, 0);
    forall k | 0 <= k < |rows|
      ensures rows[k].pointsAwarded == 0
    {
      assert Listed(saved, role, r[k]);
      assert rows[k] == RowAt(saved, r, k);
    }
  }

  /** A second load of the board saves nothing new. */
  lemma SecondLoadSavesNothing(users: seq<Account>, role: Option<Role>)
    ensures var saved := GetLeaderboard(users, role).1;
            GetLeaderboard(saved, role).1 == saved
  {
    var saved := GetLeaderboard(users, role).1;
    SavedAreSettled(users, role);
    var again := GetLeaderboard(saved, role).1;
    assert |again| == |saved|;
    forall j | 0 <= j < |saved|
      ensures again[j] == saved[j]
    {
      if Picked(saved, role, j) {
        assert again[j] == UpdateUserClassification(saved[j]).account;
      }
    }
  }

  /** Every user the same query picks from the saved collection is already
      classified, so reclassifying it changes nothing. */
  lemma SavedAreSettled(users: seq<Account>, role: Option<Role>)
    ensures var saved := GetLeaderboard(users, role).1;
            forall j :: 0 <= j < |saved| && Picked(saved, role, j) ==>
              UpdateUserClassification(saved[j]) == Update(saved[j], saved[j].role, 0)
  {
    var saved := GetLeaderboard(users, role).1;
    forall j | 0 <= j < |saved| && Picked(saved, role, j)
      ensures UpdateUserClassification(saved[j]) == Update(saved[j], saved[j].role, 0)
    {
      PickedAgainWasPicked(users, role, j);
      UpdateIdempotent(users[j]);
    }
  }

  /** The board's lines: ranks run 1, 2, ... in order, counts never rise
      along the ranks, and each line carries its user's classification. */
  lemma BoardRanks(users: seq<Account>, role: Option<Role>)
    ensures var r := Ranked(users, role);
            var rows := Rows(users, r, 0);
            && |rows| == |r|
            && (forall k :: 0 <= k < |rows| ==> rows[k].rank == k + 1)
            && (forall k, l :: 0 <= k < l < |rows| ==> rows[k].referralCount >= rows[l].referralCount)
            && (forall k :: 0 <= k < |rows| ==> rows[k].role == Classify(rows[k].referralCount))
  {
  }

  /** Every selected user with at least 1001 referrals appears in exactly
      one group, the one of its classification; a user below that appears
      in none. */
  lemma BoardGroupsPartition(users: seq<Account>, role: Option<Role>)
    ensures var rows := Rows(users, Ranked(users, role), 0);
            var b := GetLeaderboard(users, role).0;
            forall x :: x in rows ==>
              && (x in b.promoters <==> x.role == Promoter)
              && (x in b.influencers <==> x.role == Influencer)
              && (x in b.ambassadors <==> x.role == Ambassador)
              && (x.referralCount < PromoterThreshold ==> x !in b.promoters && x !in b.influencers && x !in b.ambassadors)
  {
  }

  datatype RankError = UserNotFound

  /** The ranked entry belongs to a user called `username`. */
  predicate Named(users: seq<Account>, username: string, e: Entry)
  {
    e.id < |users| && users[e.id].username == username
  }

  /** `findIndex` over the ranking: the first position holding a user
      called `username`. */
  function RankPosition(users: seq<Account>, username: string): (r: Option<nat>)
    ensures r.Some? ==> r.value < |Ranked(users, None)| && Named(users, username, Ranked(users, None)[r.value])
    ensures r.Some? ==> forall q :: 0 <= q < r.value ==> !Named(users, username, Ranked(users, None)[q])
    ensures r.None? <==> forall q :: 0 <= q < |Ranked(users, None)| ==> !Named(users, username, Ranked(users, None)[q])
  {
    Seqs.FindFirst(Ranked(users, None), (e: Entry) => Named(users, username, e))
  }

  /** `getUserRank`: the user's rank among all users (one plus the position
      of the first ranked user with that name, so 0 if none), with its
      reclassification, and the collection after that user is saved. */
  function GetUserRank(users: seq<Account>, username: string): (r: Result<(int, Update, seq<Account>), RankError>)
    ensures r.Err? <==> FindByUsername(users, username).None?
    ensures r.Ok? ==>
              var i := FindByUsername(users, username).value;
              && r.value.0 >= 1
              && r.value.1 == UpdateUserClassification(users[i])
              && |r.value.2| == |users|
              && r.value.2[i] == r.value.1.account
              && forall j :: 0 <= j < |users| && j != i ==> r.value.2[j] == users[j]
  {
    match FindByUsername(users, username)
    case None => Err(UserNotFound)
    case Some(i) =>
      var u := UpdateUserClassification(users[i]);
      Ok((RankOf(users, username), u, users[i := u.account]))
  }

  /** `findIndex(...) + 1` over the full ranking, for a user that exists. */
  function RankOf(users: seq<Account>, username: string): (rank: int)
    requires FindByUsername(users, username).Some?
    ensures rank >= 1
  {
    var i := FindByUsername(users, username).value;
    var at := RankPosition(users, username);
    assert Listed(users, None, Entry(i, |users[i].referrals|));
    assert Named(users, username, Entry(i, |users[i].referrals|)) && Entry(i, |users[i].referrals|) in Ranked(users, None);
    if at.Some? then at.value + 1 else 0
  }

  /** With unique usernames, the rank is one plus the number of users with
      more referrals, or as many and registered earlier. */
  lemma UserRankCountsAhead(users: seq<Account>, i: UserId)
    requires UniqueKeys(users) && i < |users|
    ensures var r := GetUserRank(users, users[i].username);
            && r.Ok?
            && r.value.0 == 1 + CountAhead(users, None, Entry(i, |users[i].referrals|))
  {
    var name := users[i].username;
    var ranked := Ranked(users, None);
    var e := Entry(i, |users[i].referrals|);
    assert Listed(users, None, e);
    var p := PositionOf(ranked, e);
    NamedOnlyAt(users, ranked, i, p);
    FindByUsernameUnique(users, i);
    assert RankPosition(users, name) == Some(p);
    GetUserRankAt(users, name, i, p);
    PositionIsCountAhead(users, None, e);
  }

  lemma GetUserRankAt(users: seq<Account>, username: string, i: UserId, p: nat)
    requires FindByUsername(users, username) == Some(i)
    ensures GetUserRank(users, username).Ok?
    ensures RankPosition(users, username) == Some(p) ==> GetUserRank(users, username).value.0 == p + 1
  {
  }

  /** Asking for a rank twice pays the classification award once: the
      second answer awards nothing and saves nothing new. */
  lemma SecondRankAwardsNothing(users: seq<Account>, username: string)
    requires FindByUsername(users, username).Some?
    ensures var saved := GetUserRank(users, username).value.2;
            && GetUserRank(saved, username).Ok?
            && GetUserRank(saved, username).value.1.pointsAwarded == 0
            && GetUserRank(saved, username).value.2 == saved
  {
    var i := FindByUsername(users, username).value;
    GetUserRankSaves(users, username, i);
    var u := UpdateUserClassification(users[i]);
    var saved := users[i := u.account];
    FindByUsernameKept(users, username, i, u.account);
    UpdateIdempotent(users[i]);
    SettledUserRank(saved, username, i);
  }

  /** The rank of a user already classified awards nothing and saves
      nothing new. */
  lemma SettledUserRank(users: seq<Account>, username: string, i: UserId)
    requires FindByUsername(users, username) == Some(i)
    requires UpdateUserClassification(users[i]) == Update(users[i], users[i].role, 0)
    ensures GetUserRank(users, username).Ok?
    ensures GetUserRank(users, username).value.1.pointsAwarded == 0
    ensures GetUserRank(users, username).value.2 == users
  {
    GetUserRankSaves(users, username, i);
    assert users[i := users[i]] == users;
  }

  lemma GetUserRankSaves(users: seq<Account>, username: string, i: UserId)
    requires FindByUsername(users, username) == Some(i)
    ensures GetUserRank(users, username).Ok?
    ensures GetUserRank(users, username).value.1 == UpdateUserClassification(users[i])
    ensures GetUserRank(users, username).value.2 == users[i := UpdateUserClassification(users[i]).account]
  {
  }


  /** Where a member of a sequence sits. */
  function PositionOf(s: seq<Entry>, e: Entry): (p: nat)
    requires e in s
    ensures p < |s| && s[p] == e
  {
    if s[0] == e then 0 else 1 + PositionOf(s[1..], e)
  }

  /** Under unique usernames, only the user's own entry carries its name. */
  lemma NamedOnlyAt(users: seq<Account>, ranked: seq<Entry>, i: UserId, p: nat)
    requires UniqueKeys(users) && i < |users|
    requires Sorted(ranked) && p < |ranked| && ranked[p] == Entry(i, |users[i].referrals|)
    requires forall e :: e in ranked ==> e.id < |users| && e.count == |users[e.id].referrals|
    ensures forall q :: 0 <= q < |ranked| && Named(users, users[i].username, ranked[q]) ==> q == p
  {
    forall q | 0 <= q < |ranked| && Named(users, users[i].username, ranked[q])
      ensures q == p
    {
      assert ranked[q] in ranked;
      assert ranked[q].id == i;
      assert ranked[q] == ranked[p];
    }
  }
}
