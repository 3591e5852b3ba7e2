# Reward rules of the gaming rewards site, in Dafny

This project models the reward logic behind the site's React components. That
logic covers the referral flow of the authentication context and the sign-up form.
It covers the two spin machines (the slot machine and the rewards wheel) and the
four mini-games (Click Challenge, Target Rush, Word Scramble and the daily quiz).
It also covers the leaderboard and the survey form. Every handler is lifted out of
its React state hooks and becomes a pure function over immutable records.

- Randomness is explicit. `Math.random()` values are `real` parameters in `[0, 1)`,
  or in `[0, 100)` after scaling. The quiz's `Math.sin` helper is an oracle
  function with values in `[0, 1)`.
- Store calls are explicit. The hosted `profiles` and `referrals` tables are
  sequences of rows: `Store.Profile` and `Store.Referral`. Every store call that can
  fail takes a boolean fault parameter.
- Timers are explicit. Each firing of a `setInterval` or `setTimeout` callback is
  its own step function.
- Where the source lets a callback run with the state of an older render, the model
  passes that older state explicitly. In three places this loses reward points; see
  "Findings".

Modules, one per file:
- `Wrappers`: `Option` and `Result`.
- `Text`: `trim`, `toUpperCase` and case-insensitive comparison.
- `Store`: the tables and their queries, including the referral-code lookup.
- `Auth`: the authentication context.
- `AuthPage`: the sign-up form.
- `Weighted`: cumulative-weight selection.
- `Targets`: removing a clicked target by id, shared by the two target games.
- `Shuffle`: the Fisher–Yates sweep.
- `Ledger`: prize and end-of-game writes to the profile.
- `SlotMachine`, `RewardsWheel`, `ClickChallenge`, `TargetRush`, `WordScramble`,
  `Quiz`, `Leaderboard` and `Survey`: one module per component.

All files are verified together, with a per-obligation resource limit instead of a
time limit:

    dafny verify --resource-limit 2000000 --verification-time-limit 0 --warn-contradictory-assumptions *.dfy

## Model

| member | source | states |
|---|---|---|
| Text.Trim | src/contexts/AuthContext.tsx:174 | `trim` gives nothing exactly when the code is all white space. Otherwise the result starts and ends with a non-space character and is the text between the leading and trailing white-space runs. |
| Text.IsBlank | src/components/AuthPage.tsx:26 | `code.trim() === ''`: every character is white space. Its partner is `Text.NormalizeCodeEmptyIffBlank`, which shows this is exactly when the normalised code is empty. |
| Text.UpperChar | src/components/AuthPage.tsx:28 | One character of `toUpperCase`: the result is never a lower-case letter, and it is white space exactly when the input is. A lower-case ASCII letter moves down by 32 code points; every other character is unchanged. |
| Text.Upper | src/contexts/AuthContext.tsx:174 | `toUpperCase` keeps the length and maps each character with `Text.UpperChar`. Its partners are `Text.UpperIdempotent` and `Text.SameIgnoringCaseIffUpperEqual`. |
| Text.NormalizeCode | src/contexts/AuthContext.tsx:174 | `trim().toUpperCase()` is never longer than the raw code, and it is empty exactly when the code is blank. It has no lower-case letter and no white space at either end. Its partner is `Text.NormalizeCodeEmptyIffBlank`. |
| Text.TrimIdempotent | src/contexts/AuthContext.tsx:174 | Trimming an already trimmed code changes nothing. |
| Text.UpperIdempotent | src/components/AuthPage.tsx:28 | Upper-casing an already upper-cased code changes nothing. |
| Text.TrimUpperCommute | src/components/WordScrambleGame.tsx:105 | The guess is upper-cased then trimmed; the referral code is trimmed then upper-cased. Both orders give the same string. |
| Text.SameIgnoringCaseIffUpperEqual | src/components/AuthPage.tsx:36 | Two codes match case-insensitively exactly when their upper-cased forms are equal. |
| Text.NormalizeCodeEmptyIffBlank | src/contexts/AuthContext.tsx:195 | The normalised code is empty (so `signUp` schedules nothing) exactly when the raw code is blank, which is the form's own blank test. |
| Store.Find | src/contexts/AuthContext.tsx:147-151 | Reading a profile by id succeeds exactly when a row has that id, and returns a row of the table that carries that id. |
| Store.FindUnique | src/contexts/AuthContext.tsx:147-151 | Under the primary key, reading by id returns the one row holding it. |
| Store.UpdateById | src/contexts/AuthContext.tsx:114-120 | An update by id patches every row with that id and leaves every other row as it was. |
| Store.UpdateKeepsIds | src/contexts/AuthContext.tsx:114-120 | An update by id keeps every row's id, so the primary key survives. |
| Store.FindAfterUpdate | src/contexts/AuthContext.tsx:114-122 | After the update, reading the updated id gives the patched row; reading any other id gives what it gave before. |
| Store.OthersUntouched | src/contexts/AuthContext.tsx:114-120 | No other user's profile changes under an update by id. |
| Store.RowsWithCode | src/contexts/AuthContext.tsx:216-219 | The matching rows are exactly the table's rows whose code equals the given code up to letter case. |
| Store.MaybeSingle | src/contexts/AuthContext.tsx:220 | `.maybeSingle()` gives no row for an empty result and the row for a one-row result. Several rows give an error. |
| Store.LookupByCode | src/contexts/AuthContext.tsx:216-231 | The intended lookup: a transport failure is an error. A found profile is in the table and carries the code up to case. If no profile carries the code, the lookup finds none. |
| Store.AtMostOneOwner | src/contexts/AuthContext.tsx:216-220 | With codes unique up to case, at most one row matches any code. |
| Store.LookupFindsOwner | src/contexts/AuthContext.tsx:216-231 | With codes unique up to case and a working store, the lookup succeeds. It finds a referrer exactly when some profile carries the code. |
| Store.RowsWithCodeAfterUpdate | src/contexts/AuthContext.tsx:114-120 | A balance update does not change which profiles, by id, a code matches. |
| Store.LookupAfterUpdate | src/contexts/AuthContext.tsx:216-220 | A balance update does not change whether, or whom, a code lookup finds. |
| Store.ILikeWithoutWildcards | src/contexts/AuthContext.tsx:219 | For a code without `%`, `*` or `_`, the case-insensitive LIKE match is exactly case-insensitive equality. |
| Store.ILike | src/contexts/AuthContext.tsx:219 | `ilike` matching: `%` and `*` match any run of characters, `_` matches any one character, and every other character matches itself up to letter case. Its partner is `Store.ILikeWithoutWildcards`. |
| Store.LookupByCodeAsWritten | src/contexts/AuthContext.tsx:216-220 | The lookup as issued reads the code as a LIKE pattern. A transport failure is an error. It finds a profile exactly when one row matches the pattern, and that profile is in the table. Several matching rows are an error, and no matching row finds none. |
| Store.WildcardCodeFindsStranger | src/contexts/AuthContext.tsx:219 | The code "ABC12_XY" finds the owner of "abc123xy" through the issued lookup. The intended lookup finds nobody. |
| Store.StarCodeFindsPrefixOwner | src/contexts/AuthContext.tsx:219 | The code "ABC*" finds the owner of "abc123xy" through the issued lookup. The intended lookup finds nobody. |
| Store.CountFor | src/contexts/AuthContext.tsx:249-252 | The referral count is zero exactly when no row names the referrer. It never exceeds the number of rows. |
| Store.CountForAppend | src/contexts/AuthContext.tsx:266-273 | Inserting a referral row raises that referrer's count by one and leaves every other referrer's count alone. |
| Store.PairCount | src/contexts/AuthContext.tsx:237-242 | The number of rows recording a (referrer, referred) pair is zero exactly when the pair is not recorded. |
| Store.PairCountAppend | src/contexts/AuthContext.tsx:266-273 | Inserting a referral row raises the count of its own pair by one and leaves every other pair's count alone. |
| Auth.SignOut | src/contexts/AuthContext.tsx:314-323 | A sign-out clears user, session and profile. A sign-out that throws is caught and changes nothing. |
| Auth.RefreshProfile | src/contexts/AuthContext.tsx:143-167 | With no user the call returns null and changes nothing. A failure keeps the cached profile. Success caches the signed-in user's own row, and success is guaranteed when the store works and the row exists. |
| Auth.WriteSpins | src/contexts/AuthContext.tsx:96-127 | A failing read, a missing profile or a failing update leaves the table as it was and reports an error. No row changes id. |
| Auth.AddSpins | src/contexts/AuthContext.tsx:92-141 | The store write happens first. A failed write reports an error and leaves the context alone, and so does a write for another user. For the signed-in user the context is exactly what the refresh leaves, and the call fails exactly when the refresh fails. With a working refresh the call succeeds, keeps user and session, and caches the user's own row from the written table. |
| Auth.WriteSpinsGrants | src/contexts/AuthContext.tsx:108-122 | With a working store, spins become `(spins or 0) + spinCount`, with no clamping, and the timestamp is set. No other profile changes. |
| Auth.SignUp | src/contexts/AuthContext.tsx:169-209 | The code sent with the account is the trimmed, upper-cased code. An error is returned exactly when the identity service refuses. Referral processing is scheduled exactly when a user was created and the code is not blank, and it gets the normalised code. |
| Auth.ProcessReferral | src/contexts/AuthContext.tsx:211-299 | Every refusal except a failed spin grant leaves both tables and the context unchanged. Profile ids are never changed. The call is refused as a duplicate exactly when the lookup found a referrer and the duplicate check works and sees exactly one row for the pair. |
| Auth.ReferralCredited | src/contexts/AuthContext.tsx:237-290 | A credited referral had an existing referrer below the cap of 3, and the duplicate check saw no row for the pair. On a table without repeated pairs and with a working check, the pair had no row. Exactly one row is appended, with the upper-cased code. The referrer's spins rise by exactly 1 and no other profile changes. |
| Auth.CreditedLookupStable | src/contexts/AuthContext.tsx:216-290 | After a credited referral the same code still finds the same referrer, and the referral table is the old one plus the new row. |
| Auth.RefusedIffSeen | src/contexts/AuthContext.tsx:216-246 | When the code finds a referrer, the call is refused as a duplicate, changing nothing, exactly when the duplicate check sees the pair. |
| Auth.AppendedPairSeen | src/contexts/AuthContext.tsx:237-246 | Once a row is appended, a working duplicate check sees its pair exactly when that row is the pair's first. |
| Auth.CreditedShape | src/contexts/AuthContext.tsx:211-290 | A credited referral leaves the tables with the one-spin write and the one appended row. |
| Auth.CreditedSteps | src/contexts/AuthContext.tsx:216-290 | A credited referral passed every check in order: lookup, duplicate, count below 3, insert, and both spin calls. |
| Auth.ReferralRowSurvivesGrantFailure | src/contexts/AuthContext.tsx:285-290 | If the spin grant fails after the insert, the error is returned and the referral row stays recorded. |
| Auth.ReferralKeepsCap | src/contexts/AuthContext.tsx:249-263 | If no referrer had more than 3 rows before an attempt, none does after it. |
| Auth.ReferralKeepsPairsUnique | src/contexts/AuthContext.tsx:236-246 | With a working duplicate check, no (referrer, referred) pair is ever recorded twice. |
| Auth.UniquePairsCountOne | src/contexts/AuthContext.tsx:237-246 | Without repeated pairs a pair has at most one row, so a working duplicate check sees exactly the pairs already recorded. |
| Auth.ReferralTwiceCreditsOnce | src/contexts/AuthContext.tsx:237-246 | Repeating a credited referral is refused as a duplicate, changing nothing, exactly when the first call recorded the pair's first row. A pair recorded twice defeats the check, because `.maybeSingle()` then fails and its error is ignored. With a working check on a table without repeated pairs, the pair yields one row and one spin. |
| Auth.CapReachedGrantsNothing | src/contexts/AuthContext.tsx:259-263 | A referrer with 3 or more rows gets an error, no row and no spin. |
| AuthPage.ValidateReferralCode | src/components/AuthPage.tsx:25-53 | A blank code is valid without a lookup. A failing lookup makes a code invalid. A valid non-blank code names an existing profile's code, after trimming and upper-casing and up to case. |
| AuthPage.ValidIffOwnerExists | src/components/AuthPage.tsx:28-48 | With codes unique up to case and a working store, a code is valid exactly when it is blank or some profile's code equals its trimmed form up to case. |
| AuthPage.HandleSubmit | src/components/AuthPage.tsx:55-84 | The login path signs in and never validates the code. On sign-up, a non-empty code that fails validation blocks `signUp`. Otherwise `signUp` gets the code, with an empty code passed as absent. |
| AuthPage.SubmitThenSignUp | src/components/AuthPage.tsx:69-84 | A white-space-only code passes the form but schedules no referral. A referral that is scheduled carries the normalised code, which the form validated against a working store. |
| Weighted.SelectFrom | src/components/GamingSlotMachine.tsx:30-41 | The selection is the first entry whose running total reaches the draw. If no entry does, it is entry 0, and then every running total is below the draw. |
| Weighted.Select | src/components/GamingSlotMachine.tsx:30-41 | Same as `SelectFrom`, over the whole table. |
| Weighted.Pick | src/components/GamingSlotMachine.tsx:32-40 | The accumulate-and-return loop computes the same entry as the reference selection. |
| Weighted.FirstCoveringUnique | src/components/GamingSlotMachine.tsx:34-38 | At most one entry is the first whose running total reaches the draw. |
| Weighted.PrefixMonotone | src/components/GamingSlotMachine.tsx:35 | Running totals never decrease. |
| Weighted.PrefixStrict | src/components/GamingSlotMachine.tsx:35 | With positive weights, running totals strictly increase. |
| Weighted.NoFallbackWithinTotal | src/components/GamingSlotMachine.tsx:40 | A draw no larger than the total weight never reaches the fallback. |
| Weighted.SelectedIffInSlice | src/components/GamingSlotMachine.tsx:34-38 | Entry `k` is chosen exactly when the draw lies in its slice, which runs above the running total before `k` up to and including the total through `k`. |
| Weighted.BoundaryGoesToEarlier | src/components/GamingSlotMachine.tsx:36 | A draw exactly on a running total selects the earlier entry. |
| Shuffle.DrawIndex | src/components/WordScrambleGame.tsx:51 | `Math.floor(r * (i + 1))` is an index in `0..i` and is the floor of the scaled draw. |
| Shuffle.Swap | src/components/WordScrambleGame.tsx:52 | The destructuring swap exchanges the two positions, keeps every other one, and permutes the contents. |
| Shuffle.Steps | src/components/WordScrambleGame.tsx:50-53 | The remaining sweep is a permutation and leaves the positions already swept alone. |
| Shuffle.Sweep | src/components/WordScrambleGame.tsx:61-68 | A whole sweep returns a permutation of its input. |
| Shuffle.SwapStep | src/components/WordScrambleGame.tsx:51-52 | One pass of the loop body permutes the sequence, and taking it then the rest of the sweep is the same as the sweep from that step. |
| Shuffle.FisherYates | src/components/WordScrambleGame.tsx:63-66 | The in-place loop computes the reference sweep and permutes its input. |
| Shuffle.UniformSweepIsIdentity | src/components/WordScrambleGame.tsx:48-57 | A sequence of one repeated element comes back unchanged from any sweep. |
| Shuffle.PermutationKeepsDistinct | src/components/GamingQuiz.tsx:184-200 | A permutation of a list without repeats has none, and neither has any prefix of it. |
| Ledger.PrizeDelta | src/components/GamingSlotMachine.tsx:76-89 | A point prize adds its points; a special prize adds none. Every prize moves one spin: "Extra Spin" adds one and costs none, every other prize costs one. |
| Ledger.ClampedSpins | src/components/GamingSlotMachine.tsx:94 | The new spin count is `max(0, spins - deduct + add)`: never negative, and equal to the raw result unless that is negative. |
| Ledger.PrizeMovesSpinsByOne | src/components/GamingRewardsWheel.tsx:63-77 | With at least one spin, the balance goes up by one for "Extra Spin" and down by one for any other prize. |
| Ledger.ApplyPrize | src/components/GamingSlotMachine.tsx:93-114 | No user, no cached profile, fewer than one spin, or a spin in progress means nothing happens. A rejected write changes nothing. Once written, the user's row gets snapshot points plus the prize's points and the clamped spins. |
| Ledger.AppliedPrizeBalances | src/components/GamingRewardsWheel.tsx:77-95 | After an applied spin, the user's stored spins are the clamped value and never negative. Stored points are snapshot points plus the prize's points. Other profiles are untouched. |
| Ledger.PatchedBalances | src/contexts/AuthContext.tsx:114-122 | After an update by id, the row carries the patched balances and nothing else moved. |
| Ledger.PointsEarned | src/components/ClickChallengeGame.tsx:174 | `Math.floor(score / d)` is the largest number of whole `d`-point units in the score. It is never negative for a non-negative score. |
| Ledger.CreditPoints | src/components/ClickChallengeGame.tsx:170-196 | Without a user or a cached profile nothing is written. A rejected write changes nothing. Otherwise points become snapshot points plus the earned points, written by id. |
| Ledger.CreditPointsBalances | src/components/TargetRushGame.tsx:193-209 | A credited game leaves stored points at snapshot points plus the earned points, leaves stored spins alone, and touches no other profile. |
| Ledger.StaleSnapshotLosesCredit | src/components/GamingQuiz.tsx:306-312 | Two credits written from the same snapshot keep only the second, so the first credit is lost. |
| SlotMachine.BoundsArePrefixSums | src/components/GamingSlotMachine.tsx:20-28 | The symbols' running rarity totals are 0, 35, 60, 75, 85, 87, 92, 100, so the rarities add up to 100. |
| SlotMachine.RandomSymbol | src/components/GamingSlotMachine.tsx:30-41 | For any draw in `[0, 100)`, the selection is a valid symbol index. |
| SlotMachine.SymbolSlices | src/components/GamingSlotMachine.tsx:34-38 | Symbol `k` comes up exactly for draws in its slice of the 0–100 range, and that slice is as wide as its rarity. |
| SlotMachine.JackpotSlice | src/components/GamingSlotMachine.tsx:25 | The "Nintendo Switch" comes up exactly for draws in `(85, 87]`. |
| SlotMachine.Spin | src/components/GamingSlotMachine.tsx:43-114 | A spin is ignored exactly when the guard fails. Otherwise all three reels show the drawn symbol, the prize goes through the ledger, and the machine stops spinning. |
| SlotMachine.SpinSettles | src/components/GamingSlotMachine.tsx:76-106 | A completed spin moves stored spins by one: up for draws above 92 ("Extra Spin"), down otherwise. It adds the symbol's points for draws up to 75 (the point symbols). |
| RewardsWheel.SelectIndex | src/components/GamingRewardsWheel.tsx:37-47 | The selected segment is always one of the eight. |
| RewardsWheel.PointIndicesAreThePointPrizes | src/components/GamingRewardsWheel.tsx:20-29 | Segments 1, 3, 5 and 7 are exactly the odd segments and exactly the non-special ones. |
| RewardsWheel.SpecialNeedsSecondBranch | src/components/GamingRewardsWheel.tsx:40-43 | A first draw below 0.7 always pays points, so a special prize needs a first draw of 0.7 or more. |
| RewardsWheel.EverySegmentReachable | src/components/GamingRewardsWheel.tsx:40-47 | Every segment can come up from the second branch, and every point segment also from the first branch. |
| RewardsWheel.Spin | src/components/GamingRewardsWheel.tsx:31-98 | A spin is ignored exactly when the guard fails. Otherwise the selected prize goes through the ledger and the wheel stops spinning. |
| RewardsWheel.PointBranchSettles | src/components/GamingRewardsWheel.tsx:59-90 | A completed first-branch spin costs exactly one spin and adds the segment's points, so points strictly grow. |
| Targets.Without | src/components/ClickChallengeGame.tsx:104 | Removing a clicked target keeps exactly the targets with another id. Removing an id no target has changes nothing. Target Rush removes hit targets the same way, at src/components/TargetRushGame.tsx:114. |
| ClickChallenge.RandomKind | src/components/ClickChallengeGame.tsx:41-52 | Normal comes up for draws up to 60, bomb for draws in `(85, 95]`, and shield above 95. The fallback is never reached. |
| ClickChallenge.NewTarget | src/components/ClickChallengeGame.tsx:54-66 | A spawned target carries its id, its kind and that kind's points. It lives 2 ticks exactly when it is a bonus target, and 3 otherwise. |
| ClickChallenge.Start | src/components/ClickChallengeGame.tsx:158-168 | A new game is well formed: 30 seconds, level 1, score 0, no combo or shield, and one target spawned. |
| ClickChallenge.Click | src/components/ClickChallengeGame.tsx:68-105 | An unshielded bomb gives `max(0, score - 15)` and resets the combo. A shielded bomb only uses up the shield. A shield target arms the shield and adds 5. A normal or bonus target adds `points * (combo / 5 + 1)` and extends the combo. The clicked target is removed. |
| ClickChallenge.ClickKeepsWellFormed | src/components/ClickChallengeGame.tsx:69-71 | Clicking one of the game's targets keeps the score non-negative and the target list well formed. |
| ClickChallenge.ComboDoublesAfterFive | src/components/ClickChallengeGame.tsx:91-93 | With a combo of 5 to 9, a normal target is worth double. |
| ClickChallenge.ClockTick | src/components/ClickChallengeGame.tsx:110-117 | At one second or less the game ends with time 0. Otherwise the clock loses a second. Score and targets are unchanged. |
| ClickChallenge.GameLastsItsClock | src/components/ClickChallengeGame.tsx:110-117 | With no level-up, a game with `T` seconds left is still running after fewer than `T` ticks and over after `T`. |
| ClickChallenge.OverStaysOver | src/components/ClickChallengeGame.tsx:108 | Once over, the clock no longer changes the game. |
| ClickChallenge.Survivors | src/components/ClickChallengeGame.tsx:121-129 | The survivors of a target tick are exactly the targets with more than one second left, each one second older. No target is added. When none expires, none is lost. |
| ClickChallenge.SurvivorsSingle | src/components/ClickChallengeGame.tsx:122-129 | A single target survives, one second older, exactly when it had more than one second left. |
| ClickChallenge.SurvivorsAppend | src/components/ClickChallengeGame.tsx:121-129 | The survivors of two lists joined are the survivors of each, joined in the same order. With the single-target case this fixes the tick for every list and keeps the order on screen. |
| ClickChallenge.TargetTick | src/components/ClickChallengeGame.tsx:120-130 | While the game runs, the targets become their survivors. An expiring target that is not a bomb resets the combo. Score, clock, level and shield are unchanged. A game not running is left as it is. |
| ClickChallenge.TargetTickKeepsLive | src/components/ClickChallengeGame.tsx:120-130 | While the game runs, a target is kept, one second older, exactly when it had more than one second left. Every target after the tick comes from such a target. |
| ClickChallenge.TargetTickKeepsWellFormed | src/components/ClickChallengeGame.tsx:120-130 | A target tick keeps every remaining target's timer between 1 and 3. |
| ClickChallenge.TargetLifetimes | src/components/ClickChallengeGame.tsx:62 | A bonus target disappears on the second target tick; any other kind lives through two ticks and disappears on the third. |
| ClickChallenge.SpawnTick | src/components/ClickChallengeGame.tsx:132-136 | A target is appended only while fewer than `level + 2` are on screen. |
| ClickChallenge.SpawnKeepsWellFormed | src/components/ClickChallengeGame.tsx:132-136 | Spawning keeps the game well formed and never pushes the count past `level + 2`. |
| ClickChallenge.LevelCheck | src/components/ClickChallengeGame.tsx:145-156 | The new level is the larger of the current level and `score / 100 + 1`. The clock gains 5 seconds exactly when the level rises. Score, targets and combo are unchanged. |
| ClickChallenge.LevelCheckSettles | src/components/ClickChallengeGame.tsx:145-156 | The level effect runs again once the new level renders. The second run changes nothing, so each level-up adds its 5 seconds once. |
| ClickChallenge.LevelCheckKeepsWellFormed | src/components/ClickChallengeGame.tsx:145-156 | The level check keeps the game well formed. |
| ClickChallenge.End | src/components/ClickChallengeGame.tsx:198-202 | Points are credited only once the game is over with a positive score, and then `floor(score / 10)` of them. |
| ClickChallenge.EndPaysTenth | src/components/ClickChallengeGame.tsx:174-182 | A finished game that scored pays one platform point per ten game points, rounded down, and leaves spins alone. |
| TargetRush.InArena | src/components/TargetRushGame.tsx:163-165 | A target stays while `-10 < x < 110` and `-10 < y < 110`, strictly. Its partners are `TargetRush.Fly`, which keeps exactly the moved targets inside, and `TargetRush.NewTarget`, which places every new target inside. |
| TargetRush.RandomColour | src/components/TargetRushGame.tsx:44-55 | Each colour comes up for exactly its slice of the table: red for draws up to 40, blue for (40, 70], yellow for (70, 90] and green above 90. The fallback is never reached. |
| TargetRush.NewTarget | src/components/TargetRushGame.tsx:57-99 | A spawned target starts inside the arena, carries its colour's points and speed, and has a heading within `[-1, 1]` on each axis. |
| TargetRush.Start | src/components/TargetRushGame.tsx:181-191 | A new game is well formed, with 60 seconds and one target. |
| TargetRush.Hit | src/components/TargetRushGame.tsx:102-114 | A hit adds `points + floor(streak / 5) * 5`, counts one more hit, extends the streak, raises the best streak to at least the new streak, and removes the target. |
| TargetRush.HitKeepsWellFormed | src/components/TargetRushGame.tsx:107-112 | After a hit the streak never exceeds the best streak, the best streak never exceeds the hits, and the score keeps at least 10 per hit. |
| TargetRush.Miss | src/components/TargetRushGame.tsx:129-138 | A missed click breaks the streak and changes nothing else. |
| TargetRush.MissKeepsWellFormed | src/components/TargetRushGame.tsx:129-131 | A miss keeps the game well formed. |
| TargetRush.ClockTick | src/components/TargetRushGame.tsx:143-151 | At one second or less the game ends with time 0. Otherwise the clock loses a second. |
| TargetRush.Step | src/components/TargetRushGame.tsx:155-162 | One step moves a target by its heading times its speed on each axis, and changes nothing else about it. |
| TargetRush.Fly | src/components/TargetRushGame.tsx:153-166 | After a move, the targets are exactly the moved targets that are still inside the arena. |
| TargetRush.MoveTick | src/components/TargetRushGame.tsx:153-166 | Movement changes only the targets. |
| TargetRush.MoveKeepsWellFormed | src/components/TargetRushGame.tsx:163-165 | Movement keeps every target inside the arena and carrying its colour's points. |
| TargetRush.SpawnTick | src/components/TargetRushGame.tsx:168-172 | A target is appended only while fewer than 8 are on screen. |
| TargetRush.SpawnKeepsWellFormed | src/components/TargetRushGame.tsx:169 | Spawning never puts more than 8 targets on screen. |
| TargetRush.End | src/components/TargetRushGame.tsx:221-225 | Points are credited only once the game is over with a positive score, and then `floor(score / 5)` of them. |
| TargetRush.EndPaysPerHit | src/components/TargetRushGame.tsx:197 | A well-formed finished game pays at least two platform points per hit. |
| WordScramble.StepsFor | src/components/WordScrambleGame.tsx:50 | A pass over a word of `n` letters makes `n - 1` swaps, one for each index from the last down to 1. An empty word makes none. |
| WordScramble.Scramble | src/components/WordScrambleGame.tsx:48-59 | A scrambled word is a permutation of the word's letters. For two or more letters it differs from the word. |
| WordScramble.ScrambleGivesUpIff | src/components/WordScrambleGame.tsx:55-57 | The retrying stops short exactly when no attempt was given, or the word has two or more letters and every attempt brought it back unchanged. |
| WordScramble.UniformWordNeverScrambles | src/components/WordScrambleGame.tsx:55-57 | A word made of one repeated letter can never be scrambled, so `scrambleWord` would retry forever. |
| WordScramble.GameWordsDistinct | src/components/WordScrambleGame.tsx:33-46 | The twelve game words are distinct. |
| WordScramble.RoundWords | src/components/WordScrambleGame.tsx:89 | A round uses eight distinct words from the list. |
| WordScramble.Start | src/components/WordScrambleGame.tsx:88-101 | A new round is well formed: 90 seconds, score 0, the round's first word scrambled. |
| WordScramble.Award | src/components/WordScrambleGame.tsx:108-110 | A correct guess is worth at least 5. Otherwise it is worth the word's points, plus 10 on a streak of three, minus 5 after a hint. |
| WordScramble.Graded | src/components/WordScrambleGame.tsx:104-123 | A correct guess adds its award, completes a word and extends the streak. A wrong guess breaks the streak and leaves the score alone. |
| WordScramble.Advance | src/components/WordScrambleGame.tsx:139-145 | Moving on advances the index by exactly one, scrambles the next word and clears the hint. The score is unchanged. |
| WordScramble.LastCorrectGuessUncredited | src/components/WordScrambleGame.tsx:103-138 | As written, the score `endGame` sees after a correct last guess is short of the final score by exactly that guess's award. |
| WordScramble.GuessAsWritten | src/components/WordScrambleGame.tsx:103-146 | As written: the round ends exactly at the last word, and `endGame` is handed the score from before the guess. Score, streak and words completed are those of the graded guess. |
| WordScramble.Guess | src/components/WordScrambleGame.tsx:103-146 | Corrected: the round ends exactly at the last word and credits its final score. Score, streak and words completed are those of the graded guess. Otherwise the index advances by one. |
| WordScramble.LastCorrectGuessCredited | src/components/WordScrambleGame.tsx:103-138 | Corrected, a correct last guess credits the earlier score plus that word's award. |
| WordScramble.GuessKeepsWellFormed | src/components/WordScrambleGame.tsx:103-146 | A guess keeps at least 5 points per completed word and a streak no longer than the words completed. |
| WordScramble.Normalised | src/components/WordScrambleGame.tsx:105 | The compared guess is never longer than the typed one, and it is empty exactly when the guess is blank. It has no lower-case letter and no white space at either end. Its partner is `WordScramble.GuessNormalisationOrder`. |
| WordScramble.GuessNormalisationOrder | src/components/WordScrambleGame.tsx:105 | Comparing `guess.toUpperCase().trim()` is the same as comparing `guess.trim().toUpperCase()`. |
| WordScramble.UseHint | src/components/WordScrambleGame.tsx:148-150 | The hint shows; score and word are unchanged. |
| WordScramble.HintCostsFive | src/components/WordScrambleGame.tsx:109-110 | Above the floor, a hint costs exactly 5 points of the award. |
| WordScramble.Reshuffle | src/components/WordScrambleGame.tsx:152-154 | Reshuffling rescrambles the current word and keeps index and score. |
| WordScramble.ClockTickAsWritten | src/components/WordScrambleGame.tsx:72-86 | As written, time running out ends the round at 0 seconds and hands `endGame` the score of the render in which the round started. |
| WordScramble.TimerEndCreditsNothing | src/components/WordScrambleGame.tsx:72-86 | As written, a round that runs out of time credits 0 points whatever it scored. |
| WordScramble.ClockTick | src/components/WordScrambleGame.tsx:75-83 | Corrected: time running out ends the round at 0 seconds and credits its current score. Other ticks keep the score. |
| WordScramble.End | src/components/WordScrambleGame.tsx:156-184 | Without a user or a cached profile nothing is written. A rejected write changes nothing. Otherwise the user's stored points become snapshot points plus `floor(seen / 3)`, even when `seen` is 0, and stored spins stay as they were. |
| WordScramble.EndPaysThird | src/components/WordScrambleGame.tsx:162 | Corrected, a round ended by its last guess pays one platform point per three points of its final score, rounded down. |
| Quiz.FirstQuestions | src/components/GamingQuiz.tsx:35-176 | The pool lists questions 1 to 20 in order, each with its correct option and points. |
| Quiz.DateSeed | src/components/GamingQuiz.tsx:181 | For a calendar date, the seed's last four digits are month and day and the rest is the year. |
| Quiz.PoolShape | src/components/GamingQuiz.tsx:35-176 | The pool has 20 distinct questions with ids 1 to 20, each worth 10 to 25 points, each with the correct option among 4. |
| Quiz.DateSeedInjective | src/components/GamingQuiz.tsx:181 | Different calendar dates give different seeds. |
| Quiz.JsRem | src/components/GamingQuiz.tsx:194 | JavaScript's `%` takes the dividend's sign and agrees with the mathematical remainder for non-negative operands. |
| Quiz.Lcg | src/components/GamingQuiz.tsx:194 | One generator step maps a non-negative seed into `[0, 233280)`. |
| Quiz.SeedAt | src/components/GamingQuiz.tsx:192-194 | Every seed after the first step is in `[0, 233280)`. |
| Quiz.QuizDraws | src/components/GamingQuiz.tsx:192-195 | The `k`-th draw of the daily shuffle is the helper applied to the seed after `k + 1` steps, and lies in `[0, 1)`. |
| Quiz.DailyQuestions | src/components/GamingQuiz.tsx:179-201 | The daily set is 8 distinct questions from the pool. |
| Quiz.SameSeedSameQuestions | src/components/GamingQuiz.tsx:186-200 | Two dates with the same seed get the same questions in the same order. |
| Quiz.PlayedKey | src/components/GamingQuiz.tsx:206 | The storage key is "quiz_last_played_" followed by the user id, or by "undefined" without a user. |
| Quiz.PlayedKeysDistinct | src/components/GamingQuiz.tsx:206 | Different users have different storage keys. |
| Quiz.CanPlayToday | src/components/GamingQuiz.tsx:204-208 | A user may play unless today's date string is stored under their key. |
| Quiz.Open | src/components/GamingQuiz.tsx:203-218 | Opening the quiz gives an unstarted quiz that is playable exactly when today is not stored as played. Only a playable quiz loads today's questions and is well formed. Otherwise the list stays empty and a start is refused. |
| Quiz.Start | src/components/GamingQuiz.tsx:236-254 | A start is refused on a day already played. Otherwise the quiz begins at question 0 with score 0 and 15 seconds. |
| Quiz.Answer | src/components/GamingQuiz.tsx:256-271 | A second answer is ignored. A first answer is recorded. A correct one adds the question's points and one correct answer; a wrong one adds nothing. |
| Quiz.AnswerOnce | src/components/GamingQuiz.tsx:257 | Answering twice is answering once. |
| Quiz.ClockTick | src/components/GamingQuiz.tsx:220-234 | While a question is open, at one second or less it times out with selection -1 and no points. Otherwise the clock loses a second. |
| Quiz.NextQuestionAsWritten | src/components/GamingQuiz.tsx:282-291 | As written: past the last question the quiz ends and is closed for the day, and `endGame` is handed the score of the render that scheduled the call. Otherwise it moves to the next question with a fresh 15 seconds. |
| Quiz.LastCorrectAnswerUncredited | src/components/GamingQuiz.tsx:262-284 | As written, a correct last answer is missing from the score `endGame` credits. |
| Quiz.NextQuestion | src/components/GamingQuiz.tsx:282-291 | Corrected: past the last question the quiz ends, is closed for the day and credits its score. Otherwise it moves to the next question with a fresh 15 seconds. |
| Quiz.TimeoutPathAgrees | src/components/GamingQuiz.tsx:273-280 | After a timeout, the written and the corrected `nextQuestion` agree. |
| Quiz.AnswerKeepsWellFormed | src/components/GamingQuiz.tsx:262-266 | Answering keeps at least 10 points per correct answer and no more correct answers than questions answered. |
| Quiz.NextKeepsWellFormed | src/components/GamingQuiz.tsx:282-291 | Moving on keeps the quiz well formed. |
| Quiz.End | src/components/GamingQuiz.tsx:293-326 | The end stores today as played under the user's key, even with no user, and credits `floor(score / 2)` through the ledger. |
| Quiz.OncePerDay | src/components/GamingQuiz.tsx:204-208 | After the end, the same user cannot play again today. Another signed-in user of the browser is unaffected. Any other key is affected only if it coincides with the user's. |
| Quiz.EndPaysHalf | src/components/GamingQuiz.tsx:304 | Corrected, a finished quiz pays one platform point per two points of its final score, rounded down. |
| Leaderboard.WithPoints | src/components/Leaderboard.tsx:27 | The eligible profiles are exactly those with a points value. |
| Leaderboard.Insert | src/components/Leaderboard.tsx:28 | Inserting into a list ordered highest first keeps it ordered and adds exactly the one profile. |
| Leaderboard.SortDesc | src/components/Leaderboard.tsx:28 | Sorting gives a permutation ordered highest points first. |
| Leaderboard.TopMeetsQuery | src/components/Leaderboard.tsx:24-29 | Some answer always meets the query's contract: eligible profiles only, up to ten, highest first, none left out above anyone shown. |
| Leaderboard.PrefixOutranksRest | src/components/Leaderboard.tsx:28-29 | Cutting an ordered list after `n` keeps the prefix ordered. Nothing cut off outranks anything kept. |
| Leaderboard.Ranked | src/components/Leaderboard.tsx:38-43 | Row `i` gets rank `i + 1` and keeps its id. A missing or empty name shows as "Anonymous Gamer", so no shown name is empty. Missing points show as 0. |
| Leaderboard.ShownName | src/components/Leaderboard.tsx:42 | A missing or empty name becomes "Anonymous Gamer". Any other name is shown as it is. |
| Leaderboard.RankedQueryOrder | src/components/Leaderboard.tsx:38-43 | On a query answer, there are at most ten ranks, increasing ranks never have more points, and every shown points value is the stored one. |
| Leaderboard.Load | src/components/Leaderboard.tsx:22-51 | A failed query leaves the list as it was. A successful one shows the ranked answer. |
| Leaderboard.RankIcon | src/components/Leaderboard.tsx:53-64 | Ranks 1, 2 and 3 get the crown, trophy and medal, each for exactly that rank. Every other rank gets the award icon. |
| Leaderboard.RankGradient | src/components/Leaderboard.tsx:66-77 | The default grey gradient is used exactly for ranks other than 1, 2 and 3. |
| Leaderboard.PodiumTiers | src/components/Leaderboard.tsx:53-77 | Ranks 1, 2 and 3 each have an icon and gradient of their own. All other ranks share one. |
| Survey.Remove | src/components/SurveyForm.tsx:43 | Unticking removes every occurrence and keeps the other features, in order and with their counts. |
| Survey.Toggle | src/components/SurveyForm.tsx:34-46 | Ticking appends the feature at the end, even if already listed. Unticking removes it and keeps the rest in order. |
| Survey.TickUntickRestores | src/components/SurveyForm.tsx:34-46 | Ticking an unlisted feature and then unticking it gives back the list. |
| Survey.RemoveAbsent | src/components/SurveyForm.tsx:43 | Unticking an unlisted feature changes nothing. |
| Survey.RemoveAppended | src/components/SurveyForm.tsx:38-43 | Removing a feature from a list with it appended is removing it from the list. |
| Survey.UntickIdempotent | src/components/SurveyForm.tsx:40-44 | Unticking twice is unticking once. |
| Survey.Submit | src/components/SurveyForm.tsx:48-104 | With no user nothing is sent. A refused insert stops before the award call. The profile is refreshed exactly when the insert works and the award call answers yes. The form counts as submitted exactly when the insert worked and nothing threw. |
| Survey.SubmitStoresOwnRow | src/components/SurveyForm.tsx:59-71 | A submission stores at most one survey row, and only the signed-in user's. |

## Left out

- Rendering, styling, animation and toasts are presentation and hold no reward logic. This includes the spinning-reel animation of the slot machine and the rotation of the rewards wheel.
- Timer periods and delays are not modelled. Examples are the two-second pause before `processReferral` or the next question, and the pause after a wrong word guess. Each callback is a step taken when it fires.
- Concurrent interleavings of store writes are not explored. `Ledger.StaleSnapshotLosesCredit` shows the one consequence the reward ledger documents: a lost credit.
- The authentication listener, the profile fetch on session change, and `signIn` are identity-service transport with no reward rule. The login path appears only as `AuthPage.SignInRequested`.
- The `award_survey_points` procedure runs in the database. Its answer is an oracle parameter of `Survey.Submit`.
- ReferAndEarn and the purely presentational components (hero, header, FAQ and so on) compute only display values.
- Auth.SignOut: `fails` stands for a sign-out that throws. An error the identity service returns without throwing is not distinguished; the state is then cleared as on success.
- Text.Upper: letter case is mapped for ASCII letters only. Other Unicode case mappings of `toUpperCase` are not modelled.
- Store.ILike: the backslash escape of LIKE patterns is not modelled. A backslash in a code is matched as an ordinary character.
- Store.LookupByCode: the rest of the model uses this corrected, exact case-insensitive lookup, in `Auth.ProcessReferral` and `AuthPage.ValidateReferralCode`. The lookup as issued is `Store.LookupByCodeAsWritten`; see "Findings".
- WordScramble.Scramble: `scrambleWord` retries without bound. The model takes a finite list of attempts and returns `None` when all of them come back unchanged.
- WordScramble.Word: the hint sentence shown with each word is display text and is left out.
- Quiz.Question: question and option texts are left out. Only ids, correct-option indices and points are kept.
- Quiz.QuizDraws: the `Math.sin`-based helper is an oracle with values in `[0, 1)`. Its floating-point values are not computed.
- Quiz.Open: today's date and its date string are parameters. The clock and local storage are the caller's.
- TargetRush.NewTarget: positions, headings and speeds are exact reals, not IEEE doubles. Target size is presentation and is left out.
- ClickChallenge.NewTarget: screen positions are presentation and are left out. The target id from `Math.random().toString(36)` is a parameter.
- ClickChallenge.GameLastsItsClock: states the game's length only for ticks of the game clock with no level-up in between. A level-up adds 5 seconds through `ClickChallenge.LevelCheck`.
- Leaderboard.TopQuery: the store's order among profiles with equal points is unspecified. The query is a contract, not one fixed answer.

## Findings

| source | as written | input that shows it | evidently intended | confidence | as-written member | corrected member |
|---|---|---|---|---|---|---|
| src/contexts/AuthContext.tsx:216-220 | The referrer is looked up with `ilike('referral_code', code)`, so `_`, `%` and `*` in a user's code act as wildcards. | Code "ABC12_XY" or "ABC*" with one profile whose code is "abc123xy": the referral is credited to that stranger. | A case-insensitive exact match, as the comment at line 215 says. | not executed | Store.WildcardCodeFindsStranger | Store.LookupFindsOwner |
| src/components/AuthPage.tsx:33-37 | Sign-up validation uses the same `ilike` pattern, so a code with wildcards passes validation. | Code "abc12_xy" with one profile whose code is "abc123xy" is accepted. | A case-insensitive exact match. | not executed | Store.LookupByCodeAsWritten | AuthPage.ValidIffOwnerExists |
| src/components/GamingQuiz.tsx:268-270 | The delayed `nextQuestion` belongs to the render in which the answer was given. On the last question it calls that render's `endGame`, whose `score` does not yet include the answer. | A correct answer to the eighth question worth 15 points: `endGame` credits `floor((score - 15) / 2)` instead of `floor(score / 2)`. | Credit the quiz's final score. | not executed | Quiz.LastCorrectAnswerUncredited | Quiz.NextQuestion |
| src/components/WordScrambleGame.tsx:121 | A correct guess calls the render's `nextWord`, which on the last word calls `endGame` with the score from before the guess. | A correct guess of the eighth word: its award is missing from the credited score. | Credit the round's final score. | not executed | WordScramble.LastCorrectGuessUncredited | WordScramble.Guess |
| src/components/WordScrambleGame.tsx:72-86 | The one-second interval is created when the round starts and never re-created while it runs. Its `endGame` sees the starting render's score of 0. | Any round that runs out of time after scoring 100: it credits 0 points. | Credit the score at the time the clock runs out. | not executed | WordScramble.TimerEndCreditsNothing | WordScramble.ClockTick |

For the first two rows, the comments at src/contexts/AuthContext.tsx:215 and
src/components/AuthPage.tsx:36 call both lookups case-insensitive searches for a
code. That is why the intended behaviour is taken to be equality up to letter case.
`Store.StarCodeFindsPrefixOwner` shows the same gap for `*`.
