# Earning, staking, streak, referral and leaderboard rules — a Dafny model

This project models the rules engine of a Telegram "tap-to-earn" backend.
A user document carries a spendable `balance` and a lifetime
`totalEarnings`. Points reach it from six sources:

- an hourly earning session whose rate depends on the user's role;
- fixed-term stakes that pay interest at maturity;
- a daily claim that grows with the claim streak and doubles after three referrals in a day;
- a join bonus, plus a referral bonus that cascades five levels up the `referredBy` chain;
- promo codes with a 24-hour cooldown;
- one-time task rewards.

A referral leaderboard ranks users by how many people they referred. It also
reclassifies each user as Promoter, Influencer or Ambassador. A tier's award
is paid whenever the stored role is below the new tier. Nothing stops a second
payment: a role overwrite by `setRole` makes the award payable again
(`Classification.SetRoleRepaysAward`). A role expiry would do the same
(`Classification.ExpiryRepaysAward`), but that revert is never saved.

Every handler is modelled as a pure function from the stored documents and
the request (plus the current time) to either an error or the new documents.

- Collections are sequences. A document's id is its insertion position. The model assumes that `find` returns documents in that order. MongoDB does not guarantee this natural order without a sort, and the order decides ties in the ranking.
- Instants are integer milliseconds. DailyPoint dates are day indices: "midnight today" becomes `today`, and a midnight comparison becomes an index comparison.
- `balance` is a rational number, because stake interest `amount × rate` is not rounded. `totalEarnings` is an integer.

Modules, one per file:

- `Wrappers` — Option and Result.
- `Clock` — time constants and ceil-hours.
- `Seqs` — first-match search, remove-all, no-duplicates.
- `Accounts` — the user record, `addEarnings`.
- `Earning` — the session and role expiry (models/User.js).
- `Staking` — stake, claim, unstake (models/User.js).
- `DailyPoints` — the streak, status and referral counter (controller/dailyPointController.js, models/DailyPoint.js), and the unrouted claim variant in controller/userController.js.
- `Store` — the user collection with its lookups and invariants.
- `Registration` — `registerUser`, `processReferral`, `addReferral`.
- `Promo` — `applyPromoCode`.
- `Tasks` — `completeTask`.
- `Classification` — `updateUserClassification`.
- `Handlers` — `startEarning`, `claimPoints`, `setUserRole` and `claimHourlyPoints`: the lookup, the guards and which paths save.
- `Leaderboard` — ranking, grouping and `getUserRank`.

Where the comments and the code disagree, the model follows the code:

- **The User cap.** `calculateEarnings` caps a plain User at 3600 points, although the comment next to it says 10800.
- **The classification roles.** The classification is written into the same `role` field as the earning tiers. The schema's enum (models/User.js:60) does not list Promoter, Influencer or Ambassador. The model's `Role` type includes all eight values.
  - A classified user falls into the `default` branch of `calculateEarnings` and earns nothing from sessions (`Classification.ClassifiedRoleEarnsNothing`).
  - A booster with 1001 or more referrals therefore loses its multiplier.
  - The schema validator would reject saving such a role. The model states what the function computes, not what the database would accept.
  - With the validator on, `save` throws for every user with 1001 or more referrals whose role would change. `getLeaderboard` and `getUserRank` then answer 400 for such a user, and no award is ever stored.
- **The two daily-claim handlers.** They disagree: the routed one pays 1000, 2000, 3000, ... and the unrouted one 1000, 1000, 2000, ... (`DailyPoints.FiveDayRegression`, `DailyPoints.RunsDiverge`).
- **A future-dated last claim.** The status endpoint and the claim handler disagree when the last claim date lies in the future (`DailyPoints.FutureClaimDateDisagrees`).
- **Which use blocks a promo code.** The cooldown uses the FIRST logged use of the code that is still within 24 hours, which is the oldest such use, not the most recent. A use is only logged when no recent one exists, so at most one recent use exists at any time and the difference cannot be observed.

## Model

| member | source | states |
|---|---|---|
| Seqs.FindFirst | controller/userController.js:609-611 | `find`/`findOne`: the index returned holds a match, no earlier element matches, and None exactly when nothing matches |
| Seqs.RemoveAll | models/User.js:275 | filtering an id out of the stake list removes every copy of it and keeps every other element with its multiplicity |
| Seqs.RemoveAllConcat | models/User.js:275 | the filter distributes over concatenation, so the kept elements stay in their original order |
| Seqs.RemoveAllAppended | models/User.js:247-275 | removing an id that was just pushed onto a list that did not hold it gives back the original list |
| Clock.CeilHours | controller/userController.js:614-615 | `Math.ceil(ms / 1h)`: the least h with ms ≤ h hours |
| Clock.CeilHoursMonotonic | controller/userController.js:614-615 | a longer remaining time never announces fewer hours |
| Accounts.NewAccount | models/User.js:58-124 | a new user stores the given Telegram id, username and referrer, and starts as role User with zero balance and total, not earning, no session, claim or expiry times, and empty lists |
| Accounts.AddEarnings | models/User.js:185-188 | `addEarnings` credits the balance and the lifetime total by the same amount and changes nothing else |
| Accounts.AddEarningsAdditive | models/User.js:185-188 | crediting never changes what has been withdrawn, and two credits are one credit of the sum |
| Earning.CanStartEarning | models/User.js:207-210 | a session may start exactly when none is running, whatever the role |
| Earning.StartEarning | models/User.js:132-139 | a session starts, stamped now, exactly when none is running; otherwise the record is untouched |
| Earning.StopEarning | models/User.js:141-147 | stopping reports whether a session was running and leaves none running, keeping the start time |
| Earning.StopThenStart | models/User.js:132-147 | after a stop a new session can always start; after a start another start is refused and a stop succeeds |
| Earning.CalculateEarnings | models/User.js:149-171 | no session pays 0; a plain User is capped at 3600; classified roles earn 0; non-negative once time has passed |
| Earning.EarningsFloorExactRate | models/User.js:154-167 | the integer accrual equals the floor of 10800 × hours × multiplier, capped at 3600 for User after flooring |
| Earning.EarningsMonotonic | models/User.js:149-171 | within one session the accrual never decreases with time |
| Earning.UserCapReachedAfterTwentyMinutes | models/User.js:166-167 | a User's session is worth exactly its cap iff at least 20 minutes have passed |
| Earning.Claim | models/User.js:173-183 | a positive accrual is credited, the claim time set and the session ended; a zero accrual leaves the record unchanged |
| Earning.ClaimEndsSession | models/User.js:173-183 | after a successful claim, any later claim collects nothing |
| Earning.StartThenClaimAtOnceCollectsNothing | models/User.js:173-183 | a session claimed the instant it starts pays 0 and keeps running |
| Earning.SetRole | models/User.js:190-197 | a truthy duration sets the expiry d days ahead; otherwise a LifeTime role clears it and any other role keeps it |
| Earning.CheckAndUpdateRole | models/User.js:199-205 | an expired role reverts to User with no expiry and the session stopped; after the check the role is never expired |
| Earning.CheckAndUpdateRoleIdempotent | models/User.js:199-205 | checking twice is checking once |
| Earning.ExpiryForfeitsSession | models/User.js:199-205 | after an expired role is reverted, nothing is left to claim |
| Earning.TimedRoleExpiresOnSchedule | models/User.js:190-205 | a role granted for d days survives every check before the deadline and reverts at or after it |
| Earning.LifeTimeRoleNeverExpires | models/User.js:190-205 | a LifeTime role granted without a duration is never reverted |
| Staking.InterestRate | models/User.js:217-230 | only periods 3, 15 and 45 days have a rate, each strictly between 0 and 1 |
| Staking.CreateStake | models/User.js:212-252 | the balance check comes before the period check; on success the amount leaves the balance and an active stake maturing period days later is recorded and listed |
| Staking.ActiveStakes | models/User.js:315-320 | `getActiveStakes`: exactly the stakes that exist, are listed on the user and are still active |
| Staking.ClaimableStakes | models/User.js:322-328 | `getClaimableStakes`: exactly the listed active stakes whose end date has passed; a subset of the active ones |
| Staking.ClaimableStaysClaimable | models/User.js:322-328 | a stake claimable now stays claimable later, as long as nothing settles it |
| Staking.CheckActive | models/User.js:254-263 | a stake that is unknown or not listed is not found; one that is not active is refused; success iff the stake is active and listed |
| Staking.ClaimStake | models/User.js:254-281 | succeeds iff the stake is claimable (active, listed, matured); pays principal plus amount × rate, marks it claimed and unlists it |
| Staking.Unstake | models/User.js:283-313 | succeeds iff the stake is active and listed; the interest is paid only at or after maturity |
| Staking.ClaimAndUnstakeAgreeAtMaturity | models/User.js:265-300 | on a matured stake, claiming and unstaking pay the same and leave the same user |
| Staking.StakeThenUnstakeEarlyRestores | models/User.js:212-313 | staking then unstaking before maturity restores the user exactly, with no interest |
| Staking.StakeThenClaimAtMaturityPaysInterest | models/User.js:212-281 | staking then claiming at maturity leaves the user richer by exactly amount × rate |
| Staking.SettledStakeIsFinal | models/User.js:283-313 | an unstaked stake can be neither claimed nor unstaked again |
| Staking.ClaimedStakeIsFinal | models/User.js:254-281 | a claimed stake can be neither claimed nor unstaked again |
| DailyPoints.Fresh | models/DailyPoint.js:9-27 | a new record has streak 0, no claim, amount 1000, no referrals, and the window stamped at creation |
| DailyPoints.StreakAmount | controller/dailyPointController.js:34 | `min(streak × 1000, 30000)` |
| DailyPoints.ClaimDailyPoints | controller/dailyPointController.js:6-66 | refused iff already claimed today; a broken streak restarts at 1; pays min(streak × 1000, 30000), doubled after 3 referrals, into balance and total; resets the referral window |
| DailyPoints.LegacyClaimDailyPoints | controller/userController.js:102-159 | same refusal; pays the stored next amount (1000 after a break), doubled exactly when more than two referrals arrived, and reports that bonus; dates the claim today, restarts the referral window, then recomputes the next amount from the new streak |
| DailyPoints.GetDailyPointStatus | controller/dailyPointController.js:69-113 | reports canClaimToday iff no claim is dated today or later, the streak+1 preview, bonus eligibility, and the days left to 30 |
| DailyPoints.AddReferral | controller/dailyPointController.js:116-137 | no record, no effect; a window opened before today restarts at 1, otherwise the count goes up by 1 |
| DailyPoints.StatusAgreesWithClaim | controller/dailyPointController.js:23-86 | with no future-dated claim, the status allows a claim exactly when the claim handler accepts it |
| DailyPoints.FutureClaimDateDisagrees | controller/dailyPointController.js:23-86 | with a claim dated tomorrow, the status forbids a claim that the handler accepts |
| DailyPoints.PreviewMatchesClaimIffStreakKept | controller/dailyPointController.js:27-94 | the status preview equals the next claim's base amount iff the streak is intact or never started |
| DailyPoints.NextClaimAmountIsTomorrowsPayout | controller/dailyPointController.js:27-49 | the stored next amount is what tomorrow's claim pays |
| DailyPoints.SecondClaimSameDayRejected | controller/dailyPointController.js:20-25 | a second claim on the same day is refused |
| DailyPoints.StreakSurvivesConsecutiveDaysOnly | controller/dailyPointController.js:27-33 | claiming on the next day extends the streak; skipping any day restarts it at 1 |
| DailyPoints.FreshFirstClaim | controller/dailyPointController.js:15-34 | the first claim on a new record succeeds, starts the streak at 1 and pays 1000 |
| DailyPoints.FreshReferralSameDay | models/DailyPoint.js:24-27 | a referral on the creation day counts inside the creation window |
| DailyPoints.ReferralsCountWithinDay | controller/dailyPointController.js:116-137 | n referrals in a day leave the count at n plus what was already counted today |
| DailyPoints.ThreeReferralsDoubleTheClaim | controller/dailyPointController.js:36-43 | from a window opened before today, the claim is doubled iff at least 3 referrals arrived today |
| DailyPoints.RoutedRunContinues | controller/dailyPointController.js:27-49 | on consecutive days the routed handler pays one 1000 step more each day, up to the cap |
| DailyPoints.LegacyRunContinues | controller/userController.js:123-143 | on consecutive days the variant pays the stored amount, then one step more each day |
| DailyPoints.RoutedRunFromFresh | controller/dailyPointController.js:27-49 | from a new record the k-th consecutive claim pays min(k × 1000, 30000) |
| DailyPoints.LegacyRunFromFresh | controller/userController.js:123-143 | from a new record the variant pays 1000 on the first two days and min((k−1) × 1000, 30000) on the k-th |
| DailyPoints.RunsDiverge | controller/userController.js:102-159 | from day 2 to day 30 the routed handler pays 1000 more than the variant; from day 31 both pay 30000 |
| DailyPoints.FiveDayRegression | controller/userController.js:123-143 | five days from a new record: 1000..5000 routed, 1000, 1000, 2000, 3000, 4000 unrouted |
| Store.FindByUsername | controller/userController.js:25 | `findOne({ username })`: the first user with that name, or none iff nobody has it |
| Store.FindByTelegramId | models/User.js:128-130 | `findOne({ telegramUserId })`: the first user with that id, or none iff nobody has it |
| Store.FindByUsernameUnique | models/User.js:48-52 | with the unique index, a lookup by a user's name finds that user |
| Registration.CascadeBonusValues | controller/userController.js:63-69 | the five cascade bonuses are 6000, 3000, 1500, 750 and 375 |
| Registration.Cascade | controller/userController.js:63-74 | the cascade changes only balances and totals, never lowers a total, and keeps what was withdrawn |
| Registration.CascadePaysChain | controller/userController.js:63-74 | the user k steps up the chain gains exactly the level-k bonus |
| Registration.CascadeSparesOthers | controller/userController.js:63-74 | a user not on the five-level chain is untouched |
| Registration.CascadeTotal | controller/userController.js:63-74 | the cascade raises the store-wide lifetime total by what it pays |
| Registration.CascadePaidBound | controller/userController.js:63-69 | the cascade pays between 0 and 11625 in all |
| Registration.ProcessReferral | controller/userController.js:58-75 | the referrer lists the new user, no other list changes, and links and keys are preserved |
| Registration.NoteReferral | controller/userController.js:78-99 | the referrer's DailyPoint counts one referral if it exists; with no record nothing changes; no record is created and no other record is touched |
| Registration.Join | controller/userController.js:31-45 | the store grows by one, links and keys are kept, and the new user holds exactly the join bonus |
| Registration.RegisterUser | controller/userController.js:14-55 | missing fields, then an unknown referral code, then a duplicate key are refused in that order; success iff none applies; the new user gets 30000 and a fresh DailyPoint |
| Registration.RegisteredUserUntouched | controller/userController.js:38-45 | the cascade never reaches the user being registered |
| Registration.JoinWithoutReferrer | controller/userController.js:31-45 | without a referrer only the new user is added and the total rises by 30000 |
| Registration.JoinCreditsReferrer | controller/userController.js:58-70 | the referrer lists the new user and gains 15000 + 6000 |
| Registration.JoinCreditsAncestor | controller/userController.js:63-74 | the user k = 1..4 steps above the referrer gains the level-k bonus |
| Registration.JoinSparesOthers | controller/userController.js:63-74 | every other earlier user keeps its record |
| Registration.JoinTotal | controller/userController.js:38-45 | the store-wide total rises by 30000 + 15000 + what the cascade paid, which is at most 11625 |
| Registration.RegisterPreservesValid | controller/userController.js:14-55 | registration keeps referrers before their referrals and the usernames and Telegram ids unique |
| Registration.AliceThenBob | controller/userController.js:14-75 | alice, then bob referred by alice: bob holds 30000, alice 51000 and lists bob |
| Promo.FindCode | controller/userController.js:592 | `findOne({ code })`: the first code document with that code, or none |
| Promo.RecentUse | controller/userController.js:607-611 | the first logged use of the code within 24 hours, or none iff there is none |
| Promo.HoursLeft | controller/userController.js:614-615 | the remaining cooldown rounded up to whole hours |
| Promo.ApplyPromoCode | controller/userController.js:576-640 | guards in the source's order; success iff all pass; the boost goes to the balance only and one use stamped now is logged; a cooldown error names a recent use and at least 1 hour |
| Promo.PromoLeavesTotalEarned | controller/userController.js:621-623 | a promo boost leaves the store-wide lifetime total unchanged |
| Promo.ReapplyAtOnceWaitsADay | controller/userController.js:607-632 | reapplying the same code at once is refused with 24 hours to wait |
| Promo.ReapplyAfterADay | controller/userController.js:602-632 | 24 hours after a use the code is accepted again iff it has not expired |
| Promo.CooldownHoursSuffice | controller/userController.js:613-615 | waiting the announced hours is enough, and one hour less is not |
| Tasks.CompleteTask | controller/userController.js:396-434 | guards in order; success iff the user and task exist and the task is not yet completed; records the task and credits its points |
| Tasks.CompleteTwiceRejected | controller/userController.js:417-422 | completing the same task again is refused |
| Tasks.CompleteKeepsTasksDistinct | controller/userController.js:417-422 | completed lists stay free of duplicates and the total rises by the task's points |
| Classification.Classify | controller/leaderboardController.js:16-36 | ≥10001 Ambassador, 5001..10000 Influencer, 1001..5000 Promoter, otherwise User |
| Classification.Award | controller/leaderboardController.js:21-36 | an award is paid iff the stored role is below the new tier, and it is that tier's award |
| Classification.UpdateUserClassification | controller/leaderboardController.js:16-47 | the role becomes the classification, and balance and total rise by the award; nothing changes when it already matches |
| Classification.UpdateIdempotent | controller/leaderboardController.js:38-46 | an immediate second update changes nothing and awards 0 |
| Classification.BoosterBelowThresholdDemoted | controller/leaderboardController.js:38-43 | a booster with fewer than 1001 referrals becomes User with 0 awarded |
| Classification.ClassifiedRoleEarnsNothing | models/User.js:158-170 | a classified role is outside the schema enum and earns nothing from sessions |
| Classification.ClimbCollectsEachAward | controller/leaderboardController.js:16-43 | climbing tier by tier pays 159000 + 500000 + 1200000 once each |
| Classification.JumpPaysTopAwardOnly | controller/leaderboardController.js:21-25 | jumping straight to Ambassador pays only 1200000 |
| Classification.SetRoleRepaysAward | models/User.js:190-197 | after a classification, overwriting the role with an earning tier makes the next update pay the tier's award again in full |
| Classification.ExpiryRepaysAward | models/User.js:199-205 | after a classification, an expiry revert to User makes the next update pay the tier's award again |
| Handlers.StartEarningHandler | controller/userController.js:459-484 | unknown users are refused; a user already earning is refused; otherwise only that user's document is saved, with the session open at `now` |
| Handlers.ClaimPoints | controller/userController.js:487-515 | unknown users are refused; the claim succeeds iff the expiry-checked document has positive earnings; only then is that document saved, with the amount added and the session stopped |
| Handlers.SetUserRole | controller/userController.js:518-540 | a missing role and an unknown user are refused, in that order; otherwise only that user's document is saved, with the role set as `setRole` sets it |
| Handlers.ClaimHourlyPoints | controller/leaderboardController.js:132-164 | unknown users and users already earning are refused; otherwise the claim pays 0 and the saved document has a session open at `now` |
| Handlers.ExpiredSessionIsStuck | controller/userController.js:487-515 | a user whose role expired during a session is refused by every later claim, so the expiry is never saved, and by every start and hourly claim |
| Leaderboard.Insert | controller/leaderboardController.js:58 | inserting keeps the entries, as a multiset, and keeps the order sorted |
| Leaderboard.Sort | controller/leaderboardController.js:58 | the sort is a permutation, and it is sorted by count descending then registration order |
| Leaderboard.SortedUnique | controller/leaderboardController.js:58 | two sorted arrangements of the same entries are equal |
| Leaderboard.Selected | controller/leaderboardController.js:51-57 | `find(query)`: exactly the users holding the requested role, or all users, in registration order |
| Leaderboard.Ranked | controller/leaderboardController.js:57-58 | the ranking holds exactly the selected users' entries, sorted, with counts non-increasing |
| Leaderboard.RankedIsTheSortedSelection | controller/leaderboardController.js:57-58 | any sorted arrangement of exactly the selected users is the ranking |
| Leaderboard.PositionIsCountAhead | controller/leaderboardController.js:64-67 | the position in the ranking is the number of users with more referrals, or as many and registered earlier |
| Leaderboard.RowAt | controller/leaderboardController.js:64-76 | a line's rank is its position + 1 and its role is the user's classification |
| Leaderboard.Rows | controller/leaderboardController.js:64-76 | one line per ranked user, in rank order |
| Leaderboard.Group | controller/leaderboardController.js:79-89 | a group holds exactly the lines of its classification, in rank order |
| Leaderboard.RankedIdsDistinct | controller/leaderboardController.js:57-58 | no user appears twice in the ranking |
| Leaderboard.SaveRanked | controller/leaderboardController.js:38-42 | the loop's saves: every ranked user's document becomes its reclassified version, and every other document is kept |
| Leaderboard.GetLeaderboard | controller/leaderboardController.js:49-100 | promoters, influencers and ambassadors each hold exactly the lines of that classification; the returned collection holds every user the query picked reclassified (new role, award added to balance and total) and every other user unchanged |
| Leaderboard.PickedAgainWasPicked | controller/leaderboardController.js:51-57 | a user that the same query picks after the saves was already picked before them |
| Leaderboard.SavedAreSettled | controller/leaderboardController.js:16-47 | after a load, every user the same query picks is already classified, so another update changes nothing |
| Leaderboard.SecondLoadAwardsNothing | controller/leaderboardController.js:38-74 | loading the board again, with no role change in between, awards nothing on any line |
| Leaderboard.SecondLoadSavesNothing | controller/leaderboardController.js:38-65 | loading the board again leaves the collection as the first load saved it |
| Leaderboard.BoardRanks | controller/leaderboardController.js:64-76 | ranks run 1..n, counts never rise along the ranks, and each line carries its classification |
| Leaderboard.BoardGroupsPartition | controller/leaderboardController.js:79-89 | each line is in exactly the group of its classification, and in none below 1001 referrals |
| Leaderboard.RankPosition | controller/leaderboardController.js:115 | `findIndex`: the first ranked position with that username, or none |
| Leaderboard.RankOf | controller/leaderboardController.js:112-115 | for a user that exists, `findIndex(...) + 1` is at least 1 |
| Leaderboard.GetUserRank | controller/leaderboardController.js:102-130 | unknown users are refused; otherwise the rank is at least 1, the classification update is the user's, and only that user's document is saved, as reclassified |
| Leaderboard.SecondRankAwardsNothing | controller/leaderboardController.js:106-116 | asking for the rank again awards nothing and saves nothing new |
| Leaderboard.UserRankCountsAhead | controller/leaderboardController.js:112-115 | with unique names, the rank is 1 + the number of users ranked ahead |

## Left out

- HTTP status codes, response bodies, logging and the `try`/`catch` error paths are not modelled. Database failures, validation errors on `save`, and casting errors on malformed ids are also left out. Each handler's outcome is an error value or the new documents.
- Persistence is not modelled: concurrency, the interleaving of `await`s, partial writes when a later `save` fails, and Mongo's ObjectId generation. Ids are insertion positions.
- The clock is a parameter (`now`, `today`). The separate `new Date()` calls inside one handler are taken as one instant.
- Calendar arithmetic (local midnight, time zones, daylight saving) is not modelled. Dates are day indices, and "yesterday" is `today - 1`.
- JavaScript floating point is not modelled. Amounts are exact integers or rationals, and `Math.floor` of a product is computed exactly.
- Earning.CalculateEarnings: its contract is stated for the exact rationals. Rounding differences of IEEE doubles at the floor boundary are not modelled.
- `getRoleDetails` (controller/userController.js:357-394) is not modelled separately. It makes the same state change as `setUserRole` (`Handlers.SetUserRole`) and differs only in the response.
- `lastActive`, which `startEarning` and `claimPoints` set, is not modelled. No rule reads it.
- DailyPoints.ClaimDailyPoints: it, `LegacyClaimDailyPoints` and `GetDailyPointStatus` take the user already found. The lookup is `Store.FindByTelegramId`, as in the `Handlers` module, and its 404 answer is not modelled.
- `getUserDetails` (controller/userController.js:216-246) is not modelled. It applies `checkAndUpdateRole` to the document it answers with and saves nothing, so, like a refused claim, it never stores an expiry revert.
- Wallet endpoints, `getUserReferrals`, `getCompletedTasks`, `playGame`, `getTotalStats`, `createPromoCode` and `getAllUsersWithWallets` are not modelled. They are lookups and field writes with no rule to prove.
- `getAllUsers` is not modelled. It calls the asynchronous `updateUserClassification` without awaiting it (controller/leaderboardController.js:171), so its output is not a meaningful contract.
- The unrouted `getDailyPointStatus` at controller/userController.js:162-192 is not modelled. It echoes the stored `nextClaimAmount` without computing anything.
- The task-gated `applyPromoCode` method at models/User.js:360-400 is not modelled. The routed promo handler is the controller one.
- The Task model is not part of this model. A task is its `points`, and `user.tasks` (absent from the schema) is ignored.
- Earning.SetRole: `durationInDays` is an optional whole number of days. JavaScript also accepts fractional durations such as `0.5` (12 hours) and numeric strings such as `"3"`, which are truthy and scale as numbers; these are not represented.
- Tasks.CompleteTask: a missing `taskId` is modelled as `None`. A malformed id that makes `findById` throw is not modelled.
- Leaderboard.GetLeaderboard: the role filter is modelled as an optional `Role`. A filter string naming no role (an empty result) is not modelled, and neither is the `populate` of referral usernames.
- Leaderboard.GetUserRank: the rank is computed as in the source from the first ranked user with the name. Its relation to the number of users ahead (`Leaderboard.UserRankCountsAhead`) is stated only under unique usernames, which the schema's unique index guarantees.
