# Tournament reducer, modelled in Dafny

This project models the rules engine of a small tournament tracker. Players register by name. A match is recorded as a list of players with ranks 1 to N (the match form lets at most eight players be selected), and each rank earns points from a fixed table (8, 6, 5, 4, 3, 2, 1, 0). A player on 25 points or more is at the elimination stage. A player at that stage who wins a match (rank 1) becomes a champion. The tournament is over once there are three champions. Matches can be deleted; every score and status is then rebuilt from the remaining matches, but champions stay champions. The standings list champions first, then players by points, then by registration time.

The engine is a set of pure functions from one tournament state to the next. The model keeps that form: datatypes, functions that return `Result<TournamentState, TournamentError>`, and lemmas.

- `wrappers.dfy`: `Option` and `Result`.
- `js_numbers.dfy`: the JavaScript number behaviour the engine relies on. This covers NaN (`undefined + n`), `>=` on NaN, number-to-string conversion, and the default `sort()` order, which compares numbers as strings.
- `js_array.dfy`: `find`, and `sort` with a comparator, modelled as a stable insertion sort. Proved: the result is a permutation, it is sorted under a consistent comparator, it is stable, and it is the only sorted, stable arrangement.
- `types.dfy`: players, match results, matches, the state, the score table and the two thresholds.
- `tournament.dfy`: the reducer. It covers registration, recomputation, recording a match, deleting a match and the leaderboard.
- `properties.dfy`:
  - the rank check, characterised exactly;
  - the whole-state invariant `Valid`, preserved by every operation;
  - promotion;
  - add-then-delete;
  - the ledger sum.
- `leaderboard.dfy`: the standings order, its stability and its uniqueness.
- `session.dfy`: a session of handler calls from the empty tournament, where a failed call leaves the state unchanged. Every state reached by calls that give each new player an id no player has yet satisfies `Valid`.

Numbers are JavaScript numbers. A total is `Finite(n)` or `NaN`. `NaN` arises when a player takes rank 9: the score table has no entry for rank 9, so the recorded score is `undefined`. Ids and the clock are parameters. Each operation receives the fresh id and the timestamp it would have generated.

### Edge cases of the code

The model follows the code in each case below.

- **Same-match promotion.** The app's own rule text says that reaching 25 points enters the elimination stage and that winning a match (rank 1) in that stage earns the crown (src/components/RegistrationForm.tsx:42-43, src/app/page.tsx:223-224, src/components/Leaderboard.tsx:81). It leaves open whether the match that carries a player past 25 can also crown them. The code checks the status after the new match has been counted (src/utils/tournament.ts:155-167), so a player who crosses 25 and wins in the same match is crowned (`TournamentProperties.CrossAndWinPromotes`).
- **Empty result list.** The match form will not submit a match with no players (src/components/MatchManager.tsx:70), but the reducer itself accepts an empty result list and records an empty match (`TournamentProperties.RanksAcceptedIff`).
- **Sorting ranks as strings.** The rank check sorts the ranks as strings (src/utils/tournament.ts:126). It therefore rejects every match of ten or more players, because "10" sorts before "2".
- **Nine-player matches.** The reducer accepts a nine-player match: the ranks pass the check, but the score table has no entry for rank 9. The ninth-placed player's total becomes NaN and stays NaN for as long as that match is in the ledger (`TournamentProperties.LedgerScoreNaN`). NaN never reaches 25, so that player is set to `Normal` unless already champion: a player at the elimination stage is demoted (`TournamentProperties.NinthPlaceScoresNaN`). The player also can never be crowned while the match stands (`TournamentProperties.NaNTotalNeverCrowned`). The match form caps a match at eight players (src/components/MatchManager.tsx:44), so this does not arise through the page.

## Model

| member | source | states |
|---|---|---|
| TournamentTypes.ScoreMap | src/types/tournament.ts:42-51 | ranks 1 to 8, and only those, have an entry; no entry exceeds 8 |
| TournamentTypes.ScoreTable | src/types/tournament.ts:42-51 | ranks 1 to 8 earn exactly 8, 6, 5, 4, 3, 2, 1, 0 |
| TournamentTypes.ScoreMapStrictlyDecreasing | src/types/tournament.ts:42-51 | a better rank earns strictly more points, so rank 1 is the unique maximum |
| JsNumbers.SingleDigitOrder | src/utils/tournament.ts:126 | on 0 to 9, string order agrees with numeric order |
| JsNumbers.TenBeforeNine | src/utils/tournament.ts:126 | under the default sort, 10 goes before 9 |
| JsNumbers.StringLessTransitive | src/utils/tournament.ts:126 | code-unit string order is transitive (asymmetry and totality are proved alongside) |
| JsArray.Find | src/utils/tournament.ts:104 | returns the index of the first element that satisfies the predicate, or none exactly when no element does |
| JsArray.Sort | src/utils/tournament.ts:208 | the sorted copy has exactly the elements of the input |
| JsArray.SortSorted | src/utils/tournament.ts:208 | under a consistent comparator, no element of the result goes before an earlier one |
| JsArray.SortStable | src/utils/tournament.ts:208 | elements that tie keep their input order |
| JsArray.StableSortedUnique | src/utils/tournament.ts:208 | two sorted, stable arrangements of the same elements are equal, so any stable sort gives the same result |
| Tournament.AddPlayer | src/utils/tournament.ts:67-84 | fails with DuplicatePlayer exactly when a player has the same name, whether or not the tournament is finished; otherwise appends one player with score 0, status Normal and the given id and time, and changes nothing else |
| Tournament.CalculatePlayerStatus | src/utils/tournament.ts:87-97 | a champion stays champion; nobody else becomes one; Elimination exactly when not a champion and the score is at least 25 (never for NaN) |
| Tournament.UpdatePlayersScores | src/utils/tournament.ts:100-117 | same players in the same order, with id, name and registration time kept; each total is the ledger sum; each status is recalculated from that total |
| Tournament.MatchContribution | src/utils/tournament.ts:104-105 | a match adds 0 for a player it does not name, and otherwise never a negative number; that it takes the first line naming the player is `TournamentProperties.ContributionOfFirstLine` |
| Tournament.LedgerScore | src/utils/tournament.ts:103-106 | a total that is a number is never negative; `TournamentProperties.LedgerScoreAppend` and `LedgerScoreOrderFree` state that it is the sum over the matches |
| Tournament.CountChampions | src/utils/tournament.ts:177 | the count is at most the number of players, and 0 exactly when nobody is champion; `Tournament.ChampionsKept` and `TournamentProperties.AddMatchChampions` state how it moves |
| Tournament.Ranks | src/utils/tournament.ts:126 | the submitted ranks in submission order |
| Tournament.Iota | src/utils/tournament.ts:127 | the list 1, 2, …, N |
| Tournament.RanksAccepted | src/utils/tournament.ts:126-130 | the rank check; `TournamentProperties.RanksAcceptedIff` characterises exactly which lists pass |
| Tournament.MakeResult | src/utils/tournament.ts:133-145 | copies the id and rank, takes the name of the first player with that id, and scores the line from the table |
| Tournament.MakeResults | src/utils/tournament.ts:133-145 | one result per submission, in order |
| Tournament.NewChampionIds | src/utils/tournament.ts:161-167 | an id is listed exactly when it took rank 1 in the match and the recomputed player is at Elimination |
| Tournament.Promote | src/utils/tournament.ts:170-175 | crowns the listed players; `TournamentProperties.AddMatchStatuses` states the resulting status of every player |
| Tournament.AddMatch | src/utils/tournament.ts:120-187 | fails with TournamentFinished, then InvalidRanks, then UnknownPlayer, in that order, and succeeds exactly when none applies; on success, the ledger gains exactly the new match, players keep their identity, totals are the ledger sums, and the champion count and finished flag are re-derived |
| Tournament.RemoveMatch | src/utils/tournament.ts:191 | keeps exactly the matches with another id; an absent id leaves the ledger as it is |
| Tournament.DeleteMatch | src/utils/tournament.ts:190-204 | removes the matches with the id and rebuilds every player from the rest; the champion count and finished flag are those of the players before the call |
| Tournament.ChampionsKept | src/utils/tournament.ts:192-194 | recomputation keeps champions where they were, so the champion count is unchanged |
| Tournament.CompareForLeaderboard | src/utils/tournament.ts:208-218 | the leaderboard comparator, including NaN from subtracting a NaN total; `LeaderboardProperties.GoesBeforeMeaning` states its order when totals are numbers |
| Tournament.GoesBefore | src/utils/tournament.ts:208-218 | the comparator read as the sort reads it, a NaN result counting as 0; `LeaderboardProperties.GoesBeforeMeaning` and `GoesBeforeConsistent` state its meaning |
| Tournament.GetLeaderboard | src/utils/tournament.ts:207-219 | the standings are a permutation of the players |
| TournamentProperties.DefaultLessConsistent | src/utils/tournament.ts:126 | the default sort order on numbers is a consistent comparator |
| TournamentProperties.IotaSorted | src/utils/tournament.ts:126-127 | 1 to N is already in string order when N ≤ 9 |
| TournamentProperties.RanksAcceptedIff | src/utils/tournament.ts:126-130 | ranks pass exactly when there are at most nine and they are a permutation of 1 to N; an empty list passes; ten or more never pass |
| TournamentProperties.RankOneAtMostOnce | src/utils/tournament.ts:126-130 | an accepted match has at most one rank-1 line |
| Tournament.EmptyState | src/utils/tournament.ts:47-52 | the tournament a fresh start falls back to; `TournamentProperties.EmptyStateValid` states that it satisfies the invariant |
| TournamentProperties.EmptyStateValid | src/utils/tournament.ts:47-52 | the empty tournament satisfies the invariant |
| TournamentProperties.AddPlayerPreservesValid | src/utils/tournament.ts:67-84 | registering under a fresh id keeps the invariant: distinct ids and names, totals equal to ledger sums, settled statuses, the champion count, and finished exactly at three champions |
| TournamentProperties.AppendPlayerSound | src/utils/tournament.ts:72-83 | appending a player on 0 points with a fresh id and an unused name keeps ids and names distinct and every total equal to its ledger sum |
| TournamentProperties.AppendLedgerRefers | src/utils/tournament.ts:72-83 | a ledger that names only registered players never names a fresh id, and still names only registered players after the append |
| TournamentProperties.FindPlayerDistinct | src/utils/tournament.ts:134 | with distinct ids, looking up a player's id finds that player |
| TournamentProperties.AddMatchStatuses | src/utils/tournament.ts:155-175 | after a match, each status is a champion's, or a winner's at 25 or more promoted, or the recalculated status; no other status changes |
| TournamentProperties.CrossAndWinPromotes | src/utils/tournament.ts:155-167 | a Normal player who reaches 25 in a match they win is crowned by that match |
| TournamentProperties.AtMostOneCrowned | src/utils/tournament.ts:161-175 | one match crowns at most one player |
| TournamentProperties.AddMatchChampions | src/utils/tournament.ts:157-178 | recording a match keeps every champion and crowns at most one player, so the champion count rises by 0 or 1 |
| TournamentProperties.ChampionsAfterMatch | src/utils/tournament.ts:161-177 | whenever statuses follow the promotion rule, champions are kept, at most one player is crowned, and the count rises by 0 or 1 |
| TournamentProperties.NewMatchSound | src/utils/tournament.ts:133-152 | the recorded match has accepted ranks, names registered players, and is scored from the table |
| TournamentProperties.AddMatchLedgerSound | src/utils/tournament.ts:147-155 | after a match, every ledger line names a registered player and is well formed |
| TournamentProperties.AddMatchPlayersSound | src/utils/tournament.ts:155-175 | after a match, ids and names stay distinct, totals equal ledger sums and statuses are settled |
| TournamentProperties.PromotedSound | src/utils/tournament.ts:155-175 | any player list rebuilt from the ledger and then promoted as one match promotes keeps ids and names distinct, totals equal to ledger sums, and statuses settled |
| TournamentProperties.AddMatchPreservesValid | src/utils/tournament.ts:120-187 | a successful match keeps the whole invariant |
| TournamentProperties.DeleteMatchPreservesValid | src/utils/tournament.ts:190-204 | deleting keeps the invariant and leaves the champion count and finished flag unchanged |
| TournamentProperties.RecomputedSound | src/utils/tournament.ts:192-194 | players rebuilt from a ledger keep distinct ids and names, agree with that ledger, have settled statuses, and keep the champion count |
| TournamentProperties.RemoveMatchAppend | src/utils/tournament.ts:191 | filtering distributes over concatenation |
| TournamentProperties.AddThenDeleteRestores | src/utils/tournament.ts:120-204 | in a consistent state, recording a match under a match id not already in the ledger and then deleting it restores the ledger and every player, except that a champion crowned by the match stays champion |
| TournamentProperties.DeleteAbsentIsIdentity | src/utils/tournament.ts:190-204 | deleting an absent id leaves a consistent state exactly as it was |
| TournamentProperties.ContributionOfFirstLine | src/utils/tournament.ts:103-106 | a match adds the score of the first line naming the player; a duplicate line is not counted |
| TournamentProperties.LedgerScoreAppend | src/utils/tournament.ts:103-106 | the total over two ledgers is the sum of their totals |
| TournamentProperties.LedgerScoreOrderFree | src/utils/tournament.ts:103-106 | the total does not depend on the order of the matches |
| TournamentProperties.LedgerScoreNonNegative | src/utils/tournament.ts:103-106 | over matches with scored lines only, the total is a number and not negative |
| TournamentProperties.CappedMatchScored | src/utils/tournament.ts:133-145 | in an accepted match of at most eight players, every line has a score |
| TournamentProperties.NinthPlaceScoresNaN | src/utils/tournament.ts:143 | the ninth-placed player of a nine-player match gets a NaN total and ends the match Normal, or Champion if already champion |
| TournamentProperties.LedgerScoreNaN | src/utils/tournament.ts:103-105 | one match whose line for the player has no score makes the player's total NaN |
| TournamentProperties.NaNTotalNeverCrowned | src/utils/tournament.ts:155-175 | a player whose total is NaN keeps it through every further match and ends it Normal unless already champion, so is never crowned |
| TournamentProperties.ScoresNonNegativeUnderCap | src/utils/tournament.ts:100-117 | if every match has at most eight players, every total is a non-negative number |
| LeaderboardProperties.GoesBeforeMeaning | src/utils/tournament.ts:208-218 | with numeric totals, the comparator agrees with the order "champion first, then more points, then earlier registration", and ties exactly on the same standing |
| LeaderboardProperties.GoesBeforeConsistent | src/utils/tournament.ts:208-218 | with numeric totals, the comparator is consistent |
| LeaderboardProperties.LeaderboardOrdered | src/utils/tournament.ts:207-219 | champions first, then more points first, then earlier registration first |
| LeaderboardProperties.LeaderboardStable | src/utils/tournament.ts:207-219 | players in the same standing keep their registration-list order |
| LeaderboardProperties.LeaderboardUnique | src/utils/tournament.ts:207-219 | the standings are the only ordered, stable arrangement of the players |
| LeaderboardProperties.LeaderboardExample | src/utils/tournament.ts:207-219 | players on 10, 25 (champion) and 10, registered in that order, are listed as champion, first, third |
| TournamentSession.Apply | src/app/page.tsx:64-112 | a failed registration or match leaves the state unchanged |
| TournamentSession.ApplyPreservesValid | src/app/page.tsx:64-112 | one handler call, with a fresh player id when it registers, keeps the invariant, never lowers the champion count, and never reopens a finished tournament |
| TournamentSession.RunPreservesValid | src/app/page.tsx:64-112 | the same holds over any sequence of calls with fresh player ids |
| TournamentSession.ReachableValid | src/utils/tournament.ts:47-52 | every state reached from the empty tournament by calls with fresh player ids has totals equal to ledger sums, at most three champions, and is finished exactly when there are three |
| TournamentSession.FinishedStaysFinished | src/utils/tournament.ts:121-123 | once finished, the tournament stays finished and gains no match |

## Left out

- `generateId` (src/utils/tournament.ts:12-14) is not modelled, because it reads the clock and `Math.random`. Ids are parameters instead. The invariant assumes each new player id is fresh; match ids need not be.
- `new Date()` is not modelled; the time is a parameter. A match's `date` and `createdAt` take the same reading, although the code calls the clock twice.
- `loadTournamentData` and `saveTournamentData` are left out: they are localStorage and JSON I/O. The empty tournament they fall back to is modelled (`Tournament.EmptyState`).
- `getStatusText` and `getStatusClass` are left out: they produce display text and CSS class names only.
- The HTTP API, the Redis store, SWR polling, optimistic updates and notifications are left out: they are I/O and concurrency around the reducer. `TournamentSession` models only the order of handler calls.
- Caller-side limits are not modelled, because the reducer does not enforce them: at most eight players per match, the default rank 1, and name trimming with a 20-character limit. Properties that depend on the eight-player limit state it as a precondition.
- The unused `eliminationPlayers` list in `addMatch` is left out: it affects nothing.
- Ranks that are not integers are left out; ranks are integers. A fractional rank is always rejected by the rank check anyway.
- Tournament.GetLeaderboard: stands in a stable insertion sort for the engine's sort. `LeaderboardUnique` shows that every stable sort gives the same board when all totals are numbers. When a total is NaN the comparator is inconsistent; the engine's order is then implementation-defined, and the model claims only that the board is a permutation.
- Dates are integer timestamps. Ordering by registration time compares them as integers.
- JsNumbers.Num: integers are unbounded, while a JavaScript number is a double. Sums are exact in the engine only below 2^53, and `String` writes numbers of 10^21 and above in exponent form. Ranks and realistic totals stay far below both limits.
