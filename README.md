# Sleeper Agent: a verified model of its lineup, matchup, standings and live-team logic

Sleeper Agent is a Next.js front end for Sleeper fantasy-football leagues. This project
models in Dafny the parts of it that compute something, and proves what they promise:

- **Best-ball lineups** (`lib/best-ball.ts`). A league's lineup template becomes per-position
  slot counts in first-seen order. The roster's players, with missing scores read as 0 and
  unknown players as position `UNKNOWN`, are stably sorted by score. Each requirement, in
  template order, then takes the first unused eligible players: FLEX takes RB/WR/TE, and any
  other token needs its exact position. In a best-ball league the chosen lineup and its total
  replace the starters, starter points and points of a copy of the matchup record.
- **The matchup grid** (`components/Matchups.tsx`). Records are grouped by matchup id, with
  the groups in ascending id order, and each group is sorted by score. A group of one is a
  bye. Otherwise the first two records face each other and the strictly higher scorer is
  marked. Team names come from a fallback chain.
- **The matchup detail** (`components/MatchupDetail.tsx`). It takes the first two records of
  an id in input order. The starters are shown with their points, and the bench is the
  rostered players that are not starters.
- **Standings** (`components/Standings.tsx`). The model sorts a copy of the rosters by win
  fraction, then by points for; rank is the position plus one. The shown percentage is 0
  when no game was played.
- **The roster panel** (`components/RosterView.tsx`). It fills the position buckets of the
  starters, computes the bench, and builds the record line.
- **Live teams** (`app/api/live-teams/route.ts`). This is the abbreviations of the teams in
  in-progress events, each once and in first-seen order, together with the route's failure
  responses.
- **The home page** (`app/page.tsx`). It is a class holding the page's state variables. Its
  handlers move between the standings tab, the matchup grid and a matchup's detail, and
  `Render` says what the page shows for a state.

The modules follow the source. `Sleeper` holds the record shapes of `types/sleeper.ts`, with
optional fields as `Option`. `Teams` holds the user lookups and name fallbacks. `StableSort`
models `Array.prototype.sort`. `BestBall` and `BestBallFacts` cover best ball. `Matchups`,
`MatchupsFacts`, `MatchupDetail` and `MatchupDetailFacts` cover the two matchup views.
`Standings`, `RosterView`, `LiveTeams` and `HomePage` cover the rest. `Seqs` holds the
sequence helpers shared by several of them: first-seen deduplication, set difference that
keeps order, and sums.

Scores are exact `real`s. JavaScript's `Array.prototype.sort` is stable, and its comparators
here are consistent (one exception, below), so every sort is modelled by one functional
stable insertion sort, `StableSort.Sort`. It is proved to return a permutation that is
sorted and that keeps the input order of ties. The loops of the source are methods proved
equal to a specification function that folds the same step over the input. The lemmas then
state the source's promises about that function.

The standings comparator divides by zero for a roster with no games. In JavaScript that
gives `NaN`, which the sort treats as "equal", so the comparator is not a consistent order
(see Findings). The model ranks such a roster with win fraction 0, as the row display at
`components/Standings.tsx:46-47` does. Between two rosters that have both played, the two
comparators agree (`Standings.AsWrittenAgreesWhenPlayed`). The route handler for live
teams has no recurring refresh and keeps no earlier list when a request fails: on any
failure it answers an empty list, which is what `LiveTeams.Get` models.

## Model

| member | source | states |
|---|---|---|
| BestBall.GetRosterPositionRequirements | lib/best-ball.ts:4-17 | the counting loop and `Object.entries` produce exactly `Requirements` of the template |
| BestBallFacts.RequirementsFacts | lib/best-ball.ts:4-17 | an empty template gives no requirements; the positions are exactly the template's tokens, each once, in first-seen order; each count is the token's number of occurrences and positive; the counts sum to the template length |
| BestBall.TallyKeys | lib/best-ball.ts:8-10 | after the loop the dictionary has a key exactly for each token of the template |
| BestBall.TallyCounts | lib/best-ball.ts:8-10 | after the loop each key holds the number of occurrences of its token |
| BestBall.EntriesOfTally | lib/best-ball.ts:13-16 | reading the dictionary in first-seen key order gives the requirement list |
| BestBall.PointsAtLeastOrders | lib/best-ball.ts:46 | the comparator `b.points - a.points` is a total preorder (total and transitive), so the sort is well defined |
| Sleeper.PositionOf | lib/best-ball.ts:34-40 | a position is reported exactly when the table has the player with that position and it is non-empty; a reported position is never empty, and the `\|\| 'UNKNOWN'` fallback never yields an empty position |
| BestBallFacts.PoolFacts | lib/best-ball.ts:33-46 | the sorted pool has one entry per rostered id, none dropped by the filter, each with its score or 0 and its position or `UNKNOWN`; it is a permutation of the unsorted list, sorted by score descending, and keeps the roster order of equal scores |
| BestBallFacts.ScanFacts | lib/best-ball.ts:59-83 | part way through a requirement's scan, at most `count` players are taken, no id twice, only eligible unused pool entries; an eligible new entry is passed over only when the slot is full |
| BestBallFacts.ScanGrows | lib/best-ball.ts:59-83 | the scan only appends, and once the requirement is full the rest of the scan takes nothing |
| BestBallFacts.ScanSorted | lib/best-ball.ts:46-83 | over the score-sorted pool the players a scan takes are in descending score order |
| BestBallFacts.FillFacts | lib/best-ball.ts:56-83 | one requirement takes at most its count, no id twice, only eligible unused players; if it stays short, every eligible player was already used |
| BestBallFacts.ScanRoomTakes | lib/best-ball.ts:60-81 | an eligible unused player that the scan reaches while the slot still has room is taken |
| BestBallFacts.FullBeforePassed | lib/best-ball.ts:60-81 | when an eligible player is passed over, the requirement was already full before the scan reached that player |
| BestBallFacts.FillGreedy | lib/best-ball.ts:46-83 | with the pool sorted by score, a requirement's picks are in descending score order, and no eligible player passed over scores more than any pick (greedy choice) |
| BestBallFacts.LineupAfterFacts | lib/best-ball.ts:50-84 | after the first `k` requirements, in template order, no player is chosen twice, at most the sum of their counts are chosen, and each chosen player is a pool entry eligible for one of those tokens |
| BestBallFacts.LineupFacts | lib/best-ball.ts:50-84 | over all requirements: no duplicates, at most the total slot count, every pick eligible for a template token |
| BestBallFacts.ChosenFacts | lib/best-ball.ts:33-84 | the chosen starters are distinct rostered ids, at most the template length, each with its own score and eligible for some template token |
| BestBall.FillRequirement | lib/best-ball.ts:56-83 | the inner loop with its `filled` counter pushes exactly the ids and points of `Fill`, and adds exactly those ids to the used set |
| BestBall.FillRequirements | lib/best-ball.ts:48-84 | the outer loop over the requirements produces exactly the ids and points of `Lineup`, index-aligned |
| BestBall.CalculateBestBallLineup | lib/best-ball.ts:23-93 | the guard, pool, sort, fill loops and total reduce compute exactly `BestBallLineup` |
| BestBallFacts.BestBallLineupFacts | lib/best-ball.ts:28-92 | a missing players, players_points or roster_positions gives empty starters, points and total 0; starters and points have equal length and are index-aligned (each point is that starter's score); the total is the sum of the points; starters are distinct rostered players, at most the template length, each eligible for a template token |
| BestBall.CreateBestBallMatchup | lib/best-ball.ts:95-107 | outside a best-ball league (`isBestBallLeague` at lines 19-21: `settings.best_ball` is not 1, or no league) the record comes back unchanged; in one, the copy differs only in starters, starter points and points, which are the best-ball lineup's |
| BestBallFacts.CreateBestBallMatchupFacts | lib/best-ball.ts:95-107 | in a best-ball league the new record's starters and points are aligned, its points are their sum, and no starter appears twice |
| StableSort.Sort | lib/best-ball.ts:46 | the sort returns a permutation of its input (sortedness and stability are the two lemmas below); the same sort models `matchupGroup.sort` at components/Matchups.tsx:30 and the standings sort at components/Standings.tsx:16 |
| StableSort.SortSorted | lib/best-ball.ts:46 | under a total preorder the result is sorted |
| StableSort.SortStable | lib/best-ball.ts:46 | under a total preorder the elements equivalent to any `x` keep their input order (stability) |
| StableSort.InsertSorted | lib/best-ball.ts:46 | one insertion step keeps a sorted sequence sorted |
| StableSort.InsertTies | lib/best-ball.ts:46 | one insertion step places the new element after every equivalent element already there |
| Seqs.Dedup | lib/best-ball.ts:8-13 | first-seen deduplication has no duplicates, the same members as its input, and no more elements |
| Seqs.DedupFirstSeen | app/api/live-teams/route.ts:16-17 | deduplication keeps elements in the order of their first occurrence |
| Seqs.Without | components/MatchupDetail.tsx:61-62 | the elements of a sequence not excluded, in order: exactly its members outside the excluded list |
| Teams.RosterIndex | components/Matchups.tsx:16 | `rosters.find` on the roster id: the first roster with that id, or none exactly when no roster has it |
| Teams.UserByOwnerId | components/Standings.tsx:12-14 | the first user whose user id is the owner id, or none exactly when there is no such user |
| Teams.UserByRosterId | components/Matchups.tsx:15-19 | null when no roster has the id; otherwise the owner lookup of the first roster with that id |
| Teams.FirstNonEmpty | components/Matchups.tsx:70 | the `a \|\| b \|\| fallback` chain: the first non-empty candidate, or the fallback when all are empty |
| Teams.TeamLabel | components/Matchups.tsx:70-131 | the team label is the first non-empty of team name, display name, user name and `Unknown`, and is never empty |
| Teams.DisplayLabel | components/MatchupDetail.tsx:102 | the detail and standings label is the first non-empty of display name, user name and `Unknown` |
| Matchups.MatchupPointsAtLeastOrders | components/Matchups.tsx:30 | the group comparator `b.points - a.points` is a total preorder |
| Matchups.AscendingKeys | components/Matchups.tsx:29 | `Object.values` visits the integer matchup ids in strictly ascending order, each key exactly once |
| Matchups.GroupMatchups | components/Matchups.tsx:21-32 | the grouping `reduce` and the per-group sort compute exactly `MatchupPairs` |
| MatchupsFacts.GroupedFacts | components/Matchups.tsx:21-27 | after the `reduce` the accumulator's keys are exactly the matchup ids present, and each holds that id's records in input order |
| MatchupsFacts.FilterByIdFacts | components/Matchups.tsx:21-27 | the records of one id are records of the input with that id; there is at least one when the id occurs; each record occurs as often as in the input |
| MatchupsFacts.MatchupPairsPartition | components/Matchups.tsx:21-32 | every group is non-empty and a permutation of the records of its id; together the groups are a permutation of all records, so none is lost or duplicated |
| MatchupsFacts.MatchupPairsByIds | components/Matchups.tsx:21-32 | no records give no groups and vice versa; each group shares one id; groups come in strictly ascending id order; every record's id has a group |
| MatchupsFacts.MatchupPairsOrdered | components/Matchups.tsx:30 | each group is sorted by points descending, with equal scores in input order |
| MatchupsFacts.GroupsAscend | components/Matchups.tsx:29 | the groups' ids strictly ascend |
| MatchupsFacts.GroupHead | components/Matchups.tsx:49-51 | in a group of two or more, the two records shown share an id and the first scores at least as much as the second |
| Matchups.Winner | components/Matchups.tsx:88 | the first team when it scores strictly more, the second when it does, no winner exactly on equal points |
| Matchups.CardOf | components/Matchups.tsx:46-131 | nothing for an empty group; a bye card exactly for a group of one, showing its record; otherwise a card of the group's first two records under the first one's matchup id, whose winner is the first record exactly when it scores strictly more, the second exactly when it does, and none on equal points; a side is marked exactly when the winner has its roster id |
| Matchups.MatchupsView | components/Matchups.tsx:34-46 | the empty-week message exactly when there are no records; otherwise a grid of one card per group, in group order |
| MatchupsFacts.WinnerSymmetric | components/Matchups.tsx:88 | the winner does not depend on which team is named first |
| MatchupsFacts.MatchupsViewFacts | components/Matchups.tsx:34-119 | the empty-week message exactly when there are no records; otherwise one card per group, a bye card exactly for a group of one; a head-to-head card shows the group's first two records of its id, the first never behind, so the winner is the first team or none; each side is marked exactly when the winner has its roster id |
| MatchupDetailFacts.FilterNone | components/MatchupDetail.tsx:16-24 | the filter is empty exactly when no record has the id |
| MatchupDetail.RenderPlayerPoints | components/MatchupDetail.tsx:43-75 | one starter row per lineup slot, in lineup order, with the slot's id; at most as many bench rows as rostered players, each a rostered player who is not a starter |
| MatchupDetail.MatchupDetailView | components/MatchupDetail.tsx:16-41 | not found exactly when no record has the id; a bye, with no side marked, exactly for one record of the id, showing it; otherwise the first two filtered records, with the winner the first exactly when it scores strictly more, the second exactly when it does, none on equal points, and a side marked exactly when the winner has its roster id |
| MatchupDetailFacts.FilterFront | components/MatchupDetail.tsx:16-38 | the first filtered record is the input's first record of the id, and the rest of the filter is the filter of what follows it |
| MatchupDetailFacts.OnlyOne | components/MatchupDetail.tsx:16-41 | a filter of one record means exactly one record of the input has the id |
| MatchupDetailFacts.FirstTwo | components/MatchupDetail.tsx:16-39 | with two or more matches, team1 and team2 are the first and second records of the id in input order |
| MatchupDetailFacts.PlayerPointsFacts | components/MatchupDetail.tsx:43-75 | starters in lineup order, each with `starters_points` at its index or 0; a player is on the bench exactly when rostered and not a starter; no id is both starter and bench; bench scores are `players_points` or 0 |
| MatchupDetailFacts.DetailRecords | components/MatchupDetail.tsx:16-77 | not found exactly when no record has the id; a bye exactly for the only record of the id; a head-to-head of the first two records of the id in input order |
| MatchupDetailFacts.DetailWinner | components/MatchupDetail.tsx:77-115 | each panel shows its record's player rows and display name; the winner is the strictly higher scorer and none on equal points; on a tie no side is marked; a bye marks none |
| MatchupDetailFacts.BestBallStarterRows | components/MatchupDetail.tsx:43-75 | a best-ball record can be rendered; its starter rows are distinct rostered players with their own scores, and none of them is on the bench |
| Standings.WinFraction | components/Standings.tsx:17-47 | the win fraction lies in [0, 1]; it is 0 with no games, and otherwise times the games played gives the wins |
| Standings.RanksAtLeastOrders | components/Standings.tsx:16-23 | the corrected comparator (fraction descending, then points for descending) is a total preorder |
| Standings.SortedRostersFacts | components/Standings.tsx:16-23 | the sorted copy is a permutation of the rosters; win fraction never rises down the table; on equal fractions points for never rises; rosters equal on both keys keep input order |
| Standings.WinPercent | components/Standings.tsx:46-47 | the shown percentage is 100 times the win fraction, so 0 with no games and `wins/total*100` otherwise, and lies in [0, 100] |
| Standings.StandingsRowsOrdered | components/Standings.tsx:44-53 | one row per roster, ranked 1 to N by index + 1; percentages never rise down the table, and on an equal percentage points for never rises |
| Standings.StandingsRowsShowRosters | components/Standings.tsx:44-53 | each row shows the rank, record, percentage, points for and against, and owner's display name of one of the rosters |
| Standings.AsWrittenAgreesWhenPlayed | components/Standings.tsx:17-22 | when both rosters have played, the comparator as written lets `a` come first exactly when the corrected one does, so the correction matters only for rosters without games |
| Standings.CompareAsWritten | components/Standings.tsx:16-22 | the comparator as written yields `NaN` exactly when one of the rosters has no games; otherwise its result is at most 0 exactly when the corrected comparator lets `a` come first |
| Standings.RanksAtLeastAsWritten | components/Standings.tsx:16-22 | as the sort reads the comparator as written, a roster without games may precede any roster and be preceded by any roster |
| Standings.AsWrittenIdleTiesAll | components/Standings.tsx:17-20 | as written, a roster without games compares equal to every roster, in both orders |
| Standings.IdleByPointsFor | components/Standings.tsx:16-23 | the corrected comparator orders two rosters without games by points for alone |
| Standings.IdleOrderDiffers | components/Standings.tsx:16-23 | for two rosters without games and different points for, the comparator as written allows either order (the stable sort keeps input order) while the corrected one puts the higher points for first |
| Standings.AsWrittenNotTransitive | components/Standings.tsx:17-20 | the comparator as written, with a zero-games `NaN` read as "equal", is not a total preorder: a 0-1, a 0-0-0 and a 1-0 roster contradict transitivity |
| RosterView.EmptyBuckets | components/RosterView.tsx:53-60 | the initial dictionary has exactly the seven position keys, each with an empty list |
| RosterView.PlaceStarter | components/RosterView.tsx:63-78 | one `forEach` step places a starter exactly as `Place` does: empty ids and players without a position are skipped; a known position bucket is appended to |
| RosterView.GetPlayersByPosition | components/RosterView.tsx:51-88 | the three loops build exactly the buckets `BucketsAfter` of the starters and the bench `Bench` of the roster |
| RosterView.BucketKeys | components/RosterView.tsx:53-78 | the buckets keep exactly the seven position keys |
| RosterView.StartersAt | components/RosterView.tsx:63-70 | a starter is listed under a position exactly when it is non-empty and its player has that position |
| RosterView.BucketContents | components/RosterView.tsx:63-78 | each bucket holds, in starter order, exactly the non-empty starters whose player has that position; others land nowhere |
| RosterView.FlexTakesNoSkillPlayer | components/RosterView.tsx:69-76 | the RB/WR/TE fallback into FLEX never runs: the FLEX bucket holds only players listed with position FLEX |
| RosterView.Bench | components/RosterView.tsx:81-85 | the bench is empty without a player list, and otherwise holds exactly the rostered players that are not starters |
| RosterView.RecordLineOf | components/RosterView.tsx:131-135 | the record line shows a tie count exactly when some games were neither won nor lost; with it wins, losses and ties add up to the games played, without it wins and losses do; points for is `fpts` plus `fpts_decimal` hundredths |
| RosterView.RecordLineMatchesStandings | components/RosterView.tsx:131-135 | the panel's record line shows the same wins, losses and points for as the roster's standings row, and adds ties exactly when some games were neither won nor lost, with the row's tie count |
| LiveTeams.AbbrOf | app/api/live-teams/route.ts:15-16 | a competitor contributes only a present, non-empty abbreviation |
| LiveTeams.CompetitorAbbrs | app/api/live-teams/route.ts:14-16 | the abbreviations of a competitor list are exactly those of its competitors that have one |
| LiveTeams.ExtractLiveTeams | app/api/live-teams/route.ts:10-21 | the nested loops with the `includes` guard compute exactly `LiveTeamsOf` |
| LiveTeams.LiveAbbreviationsMembers | app/api/live-teams/route.ts:11-16 | an abbreviation is collected exactly when some event whose first competition is in progress has a competitor with it |
| LiveTeams.LiveTeamsFacts | app/api/live-teams/route.ts:10-21 | no duplicates; an abbreviation is listed exactly when an in-progress event contributes it; none without `events`; listed in order of first occurrence |
| LiveTeams.Get | app/api/live-teams/route.ts:3-27 | a non-ok upstream gives no teams with its status; a thrown fetch gives no teams with status 500; a fetched board gives its live teams with status 200 |
| HomePage.Render | app/page.tsx:97-193 | the username form exactly without a user; the league page exactly with a user and a league; the loading notice exactly while loading, which hides navigation and content; the detail shows the selected matchup |
| HomePage.NavigationOrDetail | app/page.tsx:161-193 | in a consistent state a loaded league page shows the navigation bar or a matchup's detail, never both; the detail exactly when a matchup is selected |
| HomePage.Home.constructor | app/page.tsx:16-25 | the initial state: no user or league, nothing loaded, the standings tab, week 1, not loading |
| HomePage.Home.HandleUserLoaded | app/page.tsx:37-43 | stores user and leagues; a single league becomes the selection, otherwise the selection is unchanged; nothing else changes |
| HomePage.Home.StartLeagueSelect | app/page.tsx:45-54 | selects the league, starts loading, and asks for its data for the current week |
| HomePage.Home.CompleteLeagueSelect | app/page.tsx:55-63 | stores the fetched rosters, users and matchups, or keeps the old ones when the fetch threw; loading ends either way |
| HomePage.Home.HandleTabChange | app/page.tsx:66-69 | shows the chosen tab and clears the selected matchup; nothing else changes |
| HomePage.Home.StartWeekChange | app/page.tsx:71-78 | without a selected league nothing changes and nothing is fetched; otherwise stores the week, starts loading and asks for that week's matchups |
| HomePage.Home.CompleteWeekChange | app/page.tsx:78-84 | stores the fetched matchups, or keeps the old ones when the fetch threw; loading ends either way |
| HomePage.Home.HandleMatchupClick | app/page.tsx:87-90 | selects the matchup and opens the detail view; nothing else changes |
| HomePage.Home.HandleBackToMatchups | app/page.tsx:92-95 | clears the selected matchup and returns to the grid; nothing else changes |
| HomePage.Home.HandleChangeLeague | app/page.tsx:144-149 | clears the selected league; nothing else changes |

Every handler also keeps the class invariant `Valid`: the detail view is current exactly
when a matchup is selected.

## Left out

- Network and I/O: the Sleeper and ESPN `fetch` calls, Next.js `revalidate` caching and the `NextResponse` construction. A fetch outcome is a parameter: `LiveTeams.Upstream`, and the `fetched` arguments of the page's handlers.
- The NFL-state `useEffect` of `app/page.tsx:27-35` is I/O and is not modelled. `lib/sleeper-api.ts`, `components/UsernameInput.tsx`, `components/LeagueSelector.tsx`, `components/Navigation.tsx` and the `app/league` and `app/user` pages are not part of this model.
- HomePage.Home: each async handler is split into a start method and a completion method with the fetch outcome as a parameter. Interleavings of several pending fetches are not modelled.
- A recurring refresh or a keep-on-failure policy for live teams is not modelled, because the route's code does neither.
- Floating point is not modelled: scores are exact reals, `toFixed` formatting and rounding in point sums are left out, and `(fpts \|\| 0)` equals `fpts` for integers that are present.
- Standings.SortedRostersFacts: this is proved for the corrected comparator, where 0 games means fraction 0, and the model's table follows it. The source differs for rosters without games:
  - With the comparator as written such a roster ties with every roster (`Standings.AsWrittenIdleTiesAll`).
  - When every roster is without games the comparator is consistent and the source keeps the input order. The model orders those rosters by points for instead (`Standings.IdleOrderDiffers`).
  - When rosters with and without games are mixed the comparator is inconsistent (see Findings), and the order the sort then produces depends on the engine, so it is not modelled.
  - Between rosters that have all played the two orders agree (`Standings.AsWrittenAgreesWhenPlayed`).
- In-place sorts (`playersWithPoints.sort`, `matchupGroup.sort`) become the value-level stable sort `StableSort.Sort`, so aliasing of the sorted array is not modelled.
- JavaScript property order for integer-like keys: position tokens are kept in first-seen order. A token that looks like an integer, or one named like an `Object.prototype` member (`toString`, `__proto__`), would be ordered or looked up differently. Matchup ids are naturals and are visited in ascending order.
- MatchupDetail.MatchupDetailView: the source crashes on a record without `players`, or without `players_points` when the bench is not empty. The model demands those fields through `Renderable` and `DetailRenderable` instead of modelling the crash.
- Presentation is not modelled: avatars, CSS, the `Empty Slot` text for an empty starter id, subtitles under team names, the roster panel's header and its player rows, and the `onClose` and `onBack` callbacks beyond the navigation they trigger.

## Findings

| source | as written | input that shows it | evidently intended | confidence | as-written member | corrected member |
|---|---|---|---|---|---|---|
| components/Standings.tsx:17-20 | the win fraction divides by the games played, so a 0-0-0 roster has fraction `NaN`; every comparison with it yields `NaN` and the sort reads it as "equal", so the comparator is not transitive | rosters with records 0-1, 0-0-0 and 1-0 | a roster with no games ranks with win fraction 0, as the row at line 47 shows it | not executed | Standings.AsWrittenNotTransitive | Standings.SortedRostersFacts |
