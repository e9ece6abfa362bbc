# A verified model of the swat4stats.com tracker

This Dafny project models the stateful core of the swat4stats.com backend and proves what it keeps, over all
inputs and over whole runs. Database tables are maps of rows, a task or transaction is one atomic step, and replies
from the network are arbitrary inputs. The managers that update rows in place are classes whose methods are proved
against functions of the old state; the main theorems are lemmas about those functions.

| component | modules |
|---|---|
| server merging and game counters | `GameCounters`, `ServerMerging`, `MergeRuns` |
| statistics, their merging and the leaderboards | `Categories`, `PlayerTotals`, `PlayerFigures`, `KeyedTables`, `Stats`, `Leaderboards`, `Qualification`, `ProfileSpans`, `MergedStats`, `MergedStatsRuns`, `ConservationRuns`, `LostStatistics`, `StatsPositions` |
| the GameSpy status protocol | `StatusQuery`, `StatusDelivery`, `StatusOrders`, `StatusPrinting`, `StatusPatterns`, `StatusWire`, `GameSpyRecord`, `VanillaRecord` |
| the Julia query-string parser and its printer | `JuliaParser`, `JuliaInPlace`, `JuliaAliases`, `JuliaSlots`, `JuliaPrinter`, `JuliaRoundTrip`, `JuliaKeys` |
| the IP range cache | `IpRanges` |
| querying many servers, and which are listed | `TaskRunner`, `StatusFetching`, `ServerListing`, `ListingRuns` |
| chunked iteration and alias names | `KeysetIteration`, `ProfileNames` |
| cleaning names | `NameCleaning`, `Replacement` |
| shared vocabulary | `Wrappers`, `FiniteSets`, `StableSort`, `Text` |

Where the code does not do what one might expect, the model follows the code and a lemma says exactly when the
expectation holds:

- Incremental game counters are exact if and only if games arrive in id order (`GameCounters.FeedExactIff`,
  `MergeRuns.CountKeepsExactIff`). A game that a merge has already counted and that is delivered later, behind a
  newer one, is counted twice.
- A single packet with a final mark is a whole response if and only if its queryid is no integer or is one
  (`VanillaRecord.VanillaRecordBack`).
- A queued game saved to a server merged meanwhile is not on its root server (`MergeRuns.SaveKeepsGoodIffUnmerged`).
- A profile spans the years of its games if and only if they are delivered in order of years
  (`ProfileSpans.CoversIffYearsInOrder`). A merge conserves an affected figure if and only if the year lies in that span
  or the main server held the very figure already (`ConservationRuns.FigureHeldIff`). `LostStatistics.ScoreLost` is a run
  that loses a score: last year's game is delivered after this year's first one, and the server is merged. Over runs, the
  spans go on covering all statistics if and only if every delivery spares them (`ConservationRuns.ActualThroughoutIff`),
  and then every merge conserves them (`ConservationRuns.RunConserves`).
- A recomputed figure that is not positive leaves the old row in place (`MergedStatsRuns.RowAfterStats`).
- Ranking some servers takes positions away from others: `Leaderboards.OtherGroupCleared` is an input,
  `Leaderboards.OtherGroupsKeptIff` the exact condition, and `StatsPositions.UnaffectedLosesPositionIff` says which rows
  the statistics task does this to.
- The in-place expansion of a query string equals setting the values into an empty dictionary, for all values, if and
  only if every key that an earlier key stands for is extended by some key (`JuliaAliases.InPlaceIsFoldIff`).
  `JuliaInPlace.AliasFirstExample` is a concrete failing input: the dotted expansion of ` a=1&a=2`.
- Two different ranges around an address tie for the match if and only if both end at address 0 or 1
  (`IpRanges.TieIffBelowTwo`). No run leads there while addresses 0 and 1 count as reserved, as the library's test makes
  them (`IpRanges.RunMatchUnique`); `IpRanges.TieAtZero` is a run that does, with whois answers for both.
- A profile whose alias is stamped after its chunk's time is still out of date after the task
  (`ProfileNames.RefreshedOnce`).

## Model

| member | source | states |
|---|---|---|
| GameCounters.AdvanceExactIff | apps/tracker/managers/server.py:114-126 | one incremental update keeps count, first and latest equal to a recount if and only if no counted game is newer |
| GameCounters.FeedExactIff | apps/tracker/managers/map.py:29-41 | a series of deliveries agrees with the recount after every step if and only if ids arrive in order, repeats of the latest included |
| GameCounters.FedCounters | apps/tracker/managers/server.py:114-126 | after any deliveries, late and repeated ones included, the first and last delivered are recorded with their times, and each delivery of another game than the one before counts |
| ServerMerging.AffectedRows | apps/tracker/managers/server.py:325-333 | the row count test succeeds exactly when the servers to merge are distinct and all unmerged |
| ServerMerging.TwoUpdatesRepoint | apps/tracker/managers/server.py:323-345 | disabling the merged rows and then re-pointing the rows that refer to them gives each row its one new reference, and re-pointed rows keep their merge time |
| ServerMerging.ServerManager.DenormGameStats | apps/tracker/managers/server.py:128-177 | the grouped query and the loop leave every named server with a full recount and all others unchanged |
| ServerMerging.ServerManager.UpdateGameStatsWithGame | apps/tracker/managers/server.py:114-126 | only the game's server changes, by one incremental update |
| ServerMerging.ServerManager.UpdateReferences | apps/tracker/managers/server.py:303-345 | succeeds exactly for distinct unmerged servers; then games are moved and rows re-pointed |
| ServerMerging.ServerManager.MergeServers | apps/tracker/managers/server.py:281-301 | each error is raised for exactly the rows given, in the order of the checks; otherwise merged rows are disabled, stamped and without games, earlier references move without a new time, the main server is recounted, all other columns and rows stay, and games change nothing but their server |
| MergeRuns.MergeIsUnion | apps/tracker/managers/server.py:303-345 | on roots a merge is the union operation, and the references stay a forest of depth one |
| MergeRuns.MergeKeepsGood | apps/tracker/managers/server.py:281-345 | a merge keeps the forest, the agreement with the links made, and every game on the root of the server it was saved under |
| MergeRuns.SaveKeepsGoodIffUnmerged | apps/tracker/tasks/stream.py:37-41 | saving a game keeps the invariant if and only if its server is not merged at that moment |
| MergeRuns.RunKeepsGood | apps/tracker/tasks/servers.py:109-131 | the invariant holds after every run of merges, failed ones included, and saves to unmerged servers |
| MergeRuns.SameRootIffConnected | apps/tracker/managers/server.py:335-345 | after any run two servers have the same root if and only if a chain of successful merges connects them, and the root is unmerged |
| MergeRuns.CountKeepsExactIff | apps/tracker/managers/server.py:114-126 | a counter update keeps all servers' counters exact if and only if no counted game of that server is newer |
| MergeRuns.MergeKeepsExact | apps/tracker/managers/server.py:299-301 | a merge between counter updates keeps every server's counters exact |
| MergeRuns.MergeRepairsTouched | apps/tracker/managers/server.py:154-166 | whatever the counters were, a merge leaves those of the servers it touches exact, and empty for merged ones |
| MergeRuns.RunKeepsExact | apps/tracker/managers/server.py:114-177 | over every run with updates in order, incremental counters equal the recount |
| PlayerTotals.StandingOfMany | apps/tracker/managers/player.py:215-238 | sums and distinct game counts over several servers are the sums of the servers' own, top streaks the maximum |
| PlayerTotals.MergedStanding | apps/tracker/managers/player.py:260-278 | after a merge the main server's figure, ratios included, is the figure over all servers merged |
| PlayerTotals.MergeConservesTotals | apps/tracker/managers/server.py:310-314 | the main server's totals after the merge equal the sum (the maximum, for streaks) over the servers before it |
| PlayerFigures.VersusRowAdds | apps/tracker/managers/player.py:61-65 | one more row of a versus game with ten players adds its own score, time, kills, deaths and arrests, lifts the top streaks to its own, and adds one game unless the profile already has a row of it; every other total stays |
| PlayerFigures.CoopRowAdds | apps/tracker/managers/player.py:234-237 | one more row of a cooperative game does the same for the cooperative totals, with the game's score and duration, and to no other |
| PlayerFigures.OtherRowAddsNothing | apps/tracker/managers/player.py:260-278 | a row of another profile, server or year, of too small a versus game or of a mode that does not count changes no total |
| PlayerFigures.NoRowsNoFigures | apps/tracker/managers/player.py:215-238 | without rows there are no sums and streaks, and zero games |
| PlayerFigures.RatiosOfTotals | apps/tracker/managers/player.py:223-233 | the ratios are score by time in minutes, score by games and kills by deaths, and none where the divisor is none or zero |
| Stats.StatsManager.Upsert | apps/tracker/managers/stats.py:62-68 | one row stored under its unique key: the points table gains that value, keys stay unique, nothing but points changes |
| Stats.StatsManager.BulkCreate | apps/tracker/managers/stats.py:62-68 | a batch stores what inserting its rows one after another stores |
| Stats.BatchOf | apps/tracker/managers/stats.py:43-57 | the batch has a row for exactly the positive figures |
| Stats.StatsManager.SaveStats | apps/tracker/managers/stats.py:33-68 | afterwards the table holds the old points overridden by exactly the positive figures; ids, keys and positions stay |
| Stats.PositionsPerCategory | apps/tracker/managers/stats.py:120-137 | each category that occurs among the matching rows gets a list of exactly its rows' numbers |
| Stats.StatsManager.RankCategory | apps/tracker/managers/stats.py:153-176 | one category is cleared when requirements are given, then numbered |
| Stats.StatsManager.WritePositions | apps/utils/misc.py:69-71 | writing in chunks of 1000 writes every number once and touches no other row |
| Stats.StatsManager.Rank | apps/tracker/managers/stats.py:81-176 | the table ends as the closed form of the ranking, category by category in any order |
| Leaderboards.PartitionNumbered | apps/tracker/managers/stats.py:120-131 | each partition of n rows holds exactly the positions 1..n; of two of its rows the one with more points, or of equal points the one with the smaller id, has the smaller position |
| Leaderboards.RankTwice | apps/tracker/managers/stats.py:81-176 | ranking again changes nothing |
| Leaderboards.OtherGroupsKeptIff | apps/tracker/managers/stats.py:153-166 | a ranking of some servers leaves all rows of the others as they are if and only if none of them holds a position in a category that it clears |
| Leaderboards.OtherGroupCleared | apps/tracker/managers/stats.py:155-166 | a table on which ranking one server drops the position of another server's leader |
| Leaderboards.RanksCommute | apps/tracker/managers/profile.py:505-551 | passes over separate categories commute |
| Leaderboards.RankAllClosedForm | apps/tracker/managers/profile.py:559-588 | after separate passes each row is placed by the one pass that selects its category, from the original points, or kept |
| Leaderboards.AnyOrder | apps/tracker/managers/profile.py:505-588 | separate passes give the same table in any order |
| Leaderboards.PassesSeparate | apps/tracker/managers/profile.py:510-588 | the passes of the yearly updates never select the same category twice |
| Leaderboards.PlayerPassesPlace | apps/tracker/managers/profile.py:510-542 | each row of the year is placed by the one pass for its category, from the table as it was; the two team-hit ratios, which no pass selects, and other years keep their positions |
| Leaderboards.GametypePassesPlace | apps/tracker/managers/profile.py:544-551 | the same for the game type table, whose three passes select every category |
| Leaderboards.ServerPassesPlace | apps/tracker/managers/profile.py:558-588 | each row of the year is placed by the one pass for its category, from the table as it was; other years are untouched |
| Qualification.PlayerPlaced | apps/tracker/managers/profile.py:510-542 | on the player leaderboards each ratio requires 36000 seconds, 100 games, 500 kills, 1000 shots or 100 grenades of the same player and year: who has as much is placed, who has not loses the position if anybody has, and keeps it otherwise; all other categories but the team-hit ratios are placed |
| Qualification.GametypePlaced | apps/tracker/managers/profile.py:544-551 | the same per game type, where only the score ratios require anything |
| Qualification.ServerPlaced | apps/tracker/managers/profile.py:566-588 | the same per server, where the score ratios and the kill ratio do |
| Leaderboards.UpdatePerServerPositionsForYear | apps/tracker/managers/profile.py:558-588 | the per-server tables end as the passes in sequence leave them |
| Leaderboards.UpdatePlayerPositionsForYear | apps/tracker/managers/profile.py:504-554 | all three leaderboard tables end as their passes leave them |
| MergedStats.ServerStatsManager.UpdateAnnualServerStats | apps/tracker/managers/profile.py:419-454 | a profile's year on one server gains exactly its positive recomputed figures, nothing if the year is not actual |
| MergedStats.ServerStatsManager.UpdateAnnualStatsForProfile | apps/tracker/managers/profile.py:376-417 | the per-server part of the update: the same for every server the profile played on that year |
| MergedStatsRuns.UpdateStoresFigures | apps/tracker/managers/profile.py:419-454 | the yearly update stores every positive figure of the profile on every server, each of the fourteen categories included |
| MergedStats.ServerStatsManager.UpdateStatsForProfile | apps/tracker/managers/profile.py:359-364 | the year last seen is refreshed on every server, and nothing for a profile never seen |
| MergedStats.ServerStatsManager.UpdateWithGame | apps/tracker/managers/profile.py:366-374 | the profiles that played in the game, and no others, have it recorded as first if they have none, and as last |
| ProfileSpans.FirstAndLastDelivered | apps/tracker/managers/profile.py:369-374 | first and last seen are the dates of the games delivered first and last |
| ProfileSpans.CoversIffYearsInOrder | apps/tracker/managers/profile.py:474-502 | every delivered game stays in an actual year throughout if and only if deliveries come in order of years |
| MergedStats.ServerStatsManager.UpdateEach | apps/tracker/managers/stats.py:256-262 | several profile years are refreshed, in any order |
| MergedStats.ServerStatsManager.CollectAffected | apps/tracker/managers/stats.py:199-215 | the affected profile years are those with a row on a pending server, under that server's main server |
| MergedStats.RerankedOneMore | apps/tracker/managers/stats.py:224-230 | ranking one more year places its rows from the table as it was before any year was ranked |
| MergedStats.ServerStatsManager.RankAffected | apps/tracker/managers/stats.py:224-230 | points stay, and every row of an affected year is placed by the pass for its category over the servers affected that year |
| MergedStats.ServerStatsManager.DeleteMergedStats | apps/tracker/managers/stats.py:264-289 | the pending servers are stamped and exactly their rows deleted |
| MergedStats.ServerStatsManager.MergeUnmergedStats | apps/tracker/managers/stats.py:180-234 | the whole task on points and rows: main servers refreshed, affected years re-ranked, pending servers stamped and emptied; nothing at all without pending servers |
| StatsPositions.PositionAfterTask | apps/tracker/managers/stats.py:224-234 | every row's position after the task: numbered among the matching rows of affected servers, lost in the categories that the world before says are cleared, else kept |
| StatsPositions.ClearsIff | apps/tracker/managers/stats.py:97-118 | a pass over the refreshed rows clears a category if and only if, by the points before and the recomputed figures, somebody on an affected server has as much as it requires |
| StatsPositions.AffectedEndRanked | apps/tracker/managers/stats.py:217-230 | on each affected server and category exactly the qualified rows end numbered 1..n; more points, or equal points and a smaller id, give the smaller position |
| StatsPositions.UnaffectedLosesPositionIff | apps/tracker/managers/stats.py:155-166 | a row of an unaffected server changes if and only if it held a position and, by the points before and the recomputed figures, somebody qualifies for its category on a server affected that year; it then loses only that position |
| MergedStats.RefreshOneMore | apps/tracker/managers/stats.py:256-262 | refreshing one more profile year adds its figures to those of the others |
| MergedStats.AffectedByRows | apps/tracker/managers/stats.py:199-215 | the distinct rows on pending servers name exactly the affected profile years |
| MergedStatsRuns.RunKeepsClean | apps/tracker/managers/stats.py:187-193 | over any run with a clock that does not go back, a merged server that is not pending owns no statistics |
| MergedStatsRuns.StatsMergeSettles | apps/tracker/tasks/servers.py:141-143 | after the task every row belongs to an unmerged server, nothing is pending, and a second run changes nothing |
| MergedStatsRuns.RowAfterStats | apps/tracker/managers/stats.py:45-48 | a main server's row ends as the recomputed figure if positive, else as it was |
| MergedStatsRuns.MergeThenStatsConserve | apps/tracker/managers/stats.py:217-234 | for a year the profile was seen in, a merge followed by the task conserves the totals and leaves no row on a merged server |
| MergedStatsRuns.StatsLostOutsideSeenYears | apps/tracker/managers/profile.py:474-502 | when the guard on the profile's years fails the rows are lost |
| ConservationRuns.FigureHeldIff | apps/tracker/managers/profile.py:430-431 | a positive figure is what the main server's row ends with if and only if the year is actual or the row held that figure already |
| ConservationRuns.SeeGameKeepsActualIff | apps/tracker/managers/profile.py:366-374 | delivering a game keeps every year with statistics actual if and only if no profile in it has statistics of a later year |
| ConservationRuns.YearOrderSpares | apps/tracker/tasks/stream.py:51-54 | a delivery in order of years spares all statistics |
| ConservationRuns.ActualThroughoutIff | apps/tracker/managers/profile.py:474-502 | over a run every year with statistics stays actual if and only if each delivery spares the statistics so far |
| ConservationRuns.YearOrderKeepsActual | apps/tracker/tasks/stream.py:51-54 | runs with deliveries in order of years keep every year with statistics actual |
| ConservationRuns.PlainByOrigin | apps/tracker/managers/player.py:215-238 | after any merges a server's figure is that of the games saved under all the servers it stands for |
| ConservationRuns.RunConserves | apps/tracker/managers/stats.py:180-262 | after every such run the task moves each pending profile year to its main server as the total over the servers it stands for, by where games were first saved |
| LostStatistics.ScoreLost | apps/tracker/managers/profile.py:491-500 | a run from nothing in which a stored score ends nowhere, though the games still amount to it |
| Text.SplitJoin | apps/tracker/aio_tasks/serverquery.py:81-81 | splitting undoes joining for pieces without the separator |
| StatusQuery.ParseStatusPayload | apps/tracker/aio_tasks/serverquery.py:73-92 | the loop over split tokens yields the key and value pairs, dropping a key without a value |
| StatusOrders.PairsAt | apps/tracker/aio_tasks/serverquery.py:81-92 | of the pieces between backslashes, every odd one is a key and the piece behind it its value |
| StatusQuery.InspectPacket | apps/tracker/aio_tasks/serverquery.py:150-167 | the order a packet claims and whether it is final |
| StatusOrders.OrderOfFirst | apps/tracker/aio_tasks/serverquery.py:155-163 | the first statusresponse or queryid decides: its integer, one more for statusresponse, and 1 if it is no integer |
| StatusOrders.NoOrderIff | apps/tracker/aio_tasks/serverquery.py:172-173 | a packet claims no order if and only if it has neither key |
| StatusOrders.LastIsKept | apps/tracker/aio_tasks/serverquery.py:175-175 | of the packets that claim the same order the last one is kept, and none where none claims it |
| StatusOrders.ExpectedIsLastFinal | apps/tracker/aio_tasks/serverquery.py:169-170 | as many packets are expected as the last final one claims |
| StatusOrders.CollectedOutcome | apps/tracker/aio_tasks/serverquery.py:172-179 | for any packets: malformed if and only if one claims no order; otherwise complete if and only if as many different orders are claimed as expected, and not zero |
| StatusQuery.CollectStatusPayload | apps/tracker/aio_tasks/serverquery.py:136-184 | malformed, incomplete or the joined payload, for any packets |
| StatusQuery.JoinInOrder | apps/tracker/aio_tasks/serverquery.py:181-184 | the normalized packets are joined by increasing order |
| StatusQuery.ExpandStatusPayload | apps/tracker/aio_tasks/serverquery.py:94-134 | the record built pair by pair, with the errors that clashing keys raise |
| StatusOrders.PlayersInOrder | apps/tracker/aio_tasks/serverquery.py:132-132 | players are listed by number, and those of equal number as they were first mentioned |
| StatusOrders.PlayersKeyRaises | apps/tracker/aio_tasks/serverquery.py:128-132 | a parameter named like the list of players raises, wherever it stands |
| StatusQuery.Receive | apps/tracker/aio_tasks/serverquery.py:49-71 | the loop stops at the first prefix of the arrivals that is not incomplete |
| StatusDelivery.FullIffAllArrived | apps/tracker/aio_tasks/serverquery.py:177-179 | counting distinct orders suffices: as many as were sent are present if and only if all packets have arrived |
| StatusDelivery.CollectedDelivered | apps/tracker/aio_tasks/serverquery.py:136-184 | for any order and any duplicates, incomplete until all packets have arrived, then the packets in sending order |
| StatusDelivery.IncompletePrefix | apps/tracker/aio_tasks/serverquery.py:62-65 | a prefix of the arrivals keeps the loop waiting if and only if some packet is missing from it |
| StatusDelivery.ReceiveFromSender | apps/tracker/aio_tasks/serverquery.py:42-71 | the receive loop reads exactly up to the datagram that completes the set and returns the same record for every order of arrival |
| StatusPrinting.ObjectiveNameBack | apps/tracker/aio_tasks/serverquery.py:108-116 | an objective key reads back as its name |
| StatusPrinting.PlayerParamBack | apps/tracker/aio_tasks/serverquery.py:120-125 | a player key reads back as parameter and id, underscores in the parameter included |
| StatusPatterns.ObjectiveIff | apps/tracker/aio_tasks/serverquery.py:108-116 | a key is taken for an objective of a name if and only if it is spelled so, one line break aside |
| StatusPatterns.PlayerParamIff | apps/tracker/aio_tasks/serverquery.py:120-125 | a key is taken for a player's parameter if and only if it is that parameter, an underscore and the digits of the id, one line break aside |
| StatusPrinting.ExpandedRecord | apps/tracker/aio_tasks/serverquery.py:94-134 | expanding a printed record gives its fields, objectives and players back, the players by increasing number |
| StatusWire.EnvelopeNormalized | apps/tracker/aio_tasks/serverquery.py:186-193 | the statusresponse and eof envelope comes off, whatever is inside |
| StatusPatterns.EnvelopeTaken | apps/tracker/aio_tasks/serverquery.py:193-193 | any envelope comes off and leaves what it captures, its digits taking as many as they can |
| StatusPatterns.OnlyEnvelopesChange | apps/tracker/aio_tasks/serverquery.py:193-193 | whatever normalizing changes was such an envelope; any other text stays as it is |
| StatusWire.EnvelopeInfo | apps/tracker/aio_tasks/serverquery.py:152-167 | an enveloped packet claims its number, and is final if and only if the final token stands where a key stands in that packet |
| StatusWire.AdminModRoundTrip | apps/tracker/aio_tasks/serverquery.py:136-193 | a record cut at any token, between key and value too, and delivered in any order comes back whole |
| StatusWire.GameSpyRoundTrip | apps/tracker/aio_tasks/serverquery.py:94-184 | parts sent as numbered packets in any order expand to what one packet with all of them does |
| GameSpyRecord.GameSpyRecordBack | apps/tracker/aio_tasks/serverquery.py:94-184 | apart from the packet marks the record itself comes back, players in order, for parts in numbered packets in any order |
| VanillaRecord.VanillaRecordBack | apps/tracker/aio_tasks/serverquery.py:155-179 | a single packet with a final mark is complete if and only if its queryid is no integer or is one, wherever the marks stand, and then expands to the record that the other entries describe |
| VanillaRecord.MarkedRecordBack | tests/tracker/test_serverquery.py:185-237 | the round trip of the original game: a record followed by such a queryid and a final mark, in either order, comes back from its one packet, with the marks in their fields |
| VanillaRecord.OtherSignNoNumber | apps/tracker/aio_tasks/serverquery.py:156-160 | a text with any sign but digits, underscores, white space, plus and minus is no integer |
| JuliaParser.JuliaQueryString.Parse | apps/tracker/utils/parser.py:7-39 | repeated keys collect their values in order; empty keys are skipped |
| JuliaKeys.RepeatedKeys | apps/tracker/utils/parser.py:22-39 | a key given one value holds it, a key given more holds the list of them in the order given, and no other key, nor the empty one, is there |
| JuliaKeys.ParamPadded | apps/tracker/utils/parser.py:150-154 | equals signs around a parameter change nothing |
| JuliaKeys.ParamCut | apps/tracker/utils/parser.py:150-154 | a parameter is cut at its first equals sign, its value keeping all others inside it |
| JuliaKeys.QueryPadded | apps/tracker/utils/parser.py:150-150 | ampersands around a query string change nothing |
| JuliaParser.JuliaQueryString.SetComplexKeyItems | apps/tracker/utils/parser.py:87-93 | the values of a key are set one after another at its path |
| JuliaParser.JuliaQueryString.ExpandKey | apps/tracker/utils/parser.py:59-66 | one key is deleted and set again under its components, keeping all other top-level keys present |
| JuliaParser.JuliaQueryString.Expand | apps/tracker/utils/parser.py:56-93 | the loop over a copy of the keys never misses a key, whatever it inserts |
| JuliaInPlace.AliasFirstDiffers | apps/tracker/utils/parser.py:110-125 | an alias before its key reverses the two values; the results agree only if the values do |
| JuliaInPlace.AliasFirstExample | apps/tracker/utils/parser.py:56-67 | the dotted expansion of a parameter written with a leading blank before the plain one differs in place |
| JuliaInPlace.BothHeadsStay | apps/tracker/utils/parser.py:63-82 | the first component of any key is its own single component under either expansion |
| JuliaAliases.SameWhenAliasesGoOn | apps/tracker/utils/parser.py:104-109 | aliases do no harm to keys that some path extends, since a dictionary replaces them |
| JuliaAliases.InPlaceIsFoldIff | apps/tracker/utils/parser.py:41-128 | in place equals the fold for all values if and only if each key with an alias before it is extended by some key |
| JuliaAliases.ParsedFromQuery | apps/tracker/utils/parser.py:22-39 | the parser fills dictionaries of texts and lists that are not empty |
| JuliaSlots.SetItemSlots | apps/tracker/utils/parser.py:95-128 | what setting one item does to every path of the tree |
| JuliaSlots.ExpansionSlots | apps/tracker/utils/parser.py:95-128 | for different paths, what the in-place expansion has at every path |
| JuliaSlots.AnyOrderSameTree | apps/tracker/utils/parser.py:56-67 | for different paths the order of the keys makes no difference |
| JuliaSlots.SurvivesIffNotExtended | apps/tracker/utils/parser.py:104-109 | a value survives at its path if and only if no other path strictly extends it |
| JuliaPrinter.AddItems | tests/factories/streaming.py:46-61 | the recursive filling puts every plain value under its path and keeps all else |
| JuliaPrinter.ToJuliaDict | tests/factories/streaming.py:45-66 | the flat dictionary is exactly the document's plain values by path |
| JuliaPrinter.DecodedTree | apps/tracker/utils/parser.py:41-93 | expanding a dictionary of such paths in any order gives the document's tree, lists keyed by index |
| JuliaRoundTrip.BracketKeyBack | tests/factories/streaming.py:68-77 | a bracketed key reads back as its components |
| JuliaRoundTrip.DotKeyBack | tests/factories/streaming.py:79-88 | a dotted key reads back as its components |
| JuliaKeys.BracketKeyIff | apps/tracker/utils/parser.py:70-82 | a key reads as a name, subkeys and a list mark if and only if it is spelled with exactly those |
| JuliaKeys.SpreadOf | apps/tracker/utils/parser.py:83-92 | the values set for a bracketed key are those it holds, in order, each in a list of its own behind a list mark |
| JuliaKeys.DotSeparates | apps/tracker/utils/parser.py:63-63 | the components of two keys joined by a dot are those of the one and then those of the other |
| JuliaKeys.DotFree | apps/tracker/utils/parser.py:63-63 | between dots there is one component without the white space around it, or none when there is nothing else |
| JuliaRoundTrip.QueryBack | apps/tracker/utils/parser.py:130-155 | parsing a printed query string gives its parameters back, in order |
| JuliaRoundTrip.DecodeBody | apps/tracker/views/api.py:99-108 | the body is parsed and expanded with the method its keys call for |
| JuliaRoundTrip.RoundTrip | apps/tracker/views/api.py:97-108 | a document printed in either encoding, parameters in any order, decodes to the same tree |
| IpRanges.NestedOrDisjoint | apps/geoip/managers.py:173-180 | two aligned blocks (section 3.1 of RFC 4632) that share an address are nested |
| IpRanges.LongestPrefixMatch | apps/geoip/managers.py:63-69 | among ranges that end above address 1 the shortest around an address is unique and inside all others |
| IpRanges.TieIffBelowTwo | apps/geoip/managers.py:33-37 | two ranges around an address tie in length if and only if both end at address 0 or 1 |
| IpRanges.RunMatchUnique | apps/geoip/managers.py:63-69 | over any run in which addresses 0 and 1 are reserved the shortest range around every address is unique |
| IpRanges.TieAtZero | apps/geoip/managers.py:33-37 | a run with whois answers for addresses 0 and 1 that ends in a tie |
| IpRanges.PickProperCidrFromList | apps/geoip/managers.py:199-206 | the search loop returns the first listed block around the address, unless a bad piece comes first |
| IpRanges.QueryIpAddress | apps/geoip/managers.py:143-192 | the finding, or failure, for any whois reply |
| IpRanges.FoundIff | apps/geoip/managers.py:143-192 | a reserved address names itself; otherwise exactly the answer's first network around the address is found, with the answer's description and country |
| IpRanges.FoundAround | apps/geoip/managers.py:175-180 | whatever is found is an aligned block around the address |
| IpRanges.IspManager.Match | apps/geoip/managers.py:52-69 | the provider and length of a shortest stored range around the address; none exactly when no range is around it |
| IpRanges.IspManager.Store | apps/geoip/managers.py:111-141 | a range that is stored already changes nothing; a new one is inserted with a provider whose name is the description and whose country is the country, empty texts being none, and the provider is new if and only if there is no description or no earlier provider has this name and country; all other rows stay |
| IpRanges.IspManager.MatchOrCreate | apps/geoip/managers.py:71-141 | whois is asked if and only if no stored range is short enough; the result is the match, the fallback, or what storing the reserved address or the answer's first network, description and country gives |
| IpRanges.IspManager.DeleteExpired | apps/geoip/tasks.py:10-18 | the ranges that remain are exactly those within their lifetime, unchanged, with all providers, and the tables stay valid |
| IpRanges.RunValid | apps/geoip/models.py:21-23 | over any run stored ranges stay aligned, unique and linked to a provider |
| IpRanges.NeverAskedAgain | apps/geoip/managers.py:78-88 | once an acceptable range is stored no address in it triggers whois, until that row is deleted |
| IpRanges.FreshRangeMatches | apps/geoip/managers.py:111-141 | right after an acceptable range is stored, it is the only possible match and its provider the one returned |
| KeysetIteration.VisitNext | apps/utils/misc.py:62-66 | one more chunk extends what was visited without gap or repeat; a short chunk completes it |
| KeysetIteration.IterateQueryset | apps/utils/misc.py:56-66 | each matching positive key is visited exactly once in increasing order, though the consumer removes visited rows; all chunks but the last are full |
| ProfileNames.ProfileManager.DenormAliasNames | apps/tracker/managers/profile.py:590-629 | the given profiles get exactly the names of their aliases other than their own, and the time; nothing else of them and no other profile changes |
| ProfileNames.ProfileManager.DenormProfileNames | apps/tracker/tasks/profiles.py:40-45 | the task visits each out-of-date profile once, in chunks, while its updates shrink the query |
| ProfileNames.OnlyChunkSettles | apps/tracker/managers/profile.py:58-62 | refreshing takes only refreshed profiles out of the query and brings none into it |
| ProfileNames.RefreshedOnce | apps/tracker/managers/profile.py:627-629 | each out-of-date profile is refreshed in one chunk and stays out of date if and only if its alias was stamped after that chunk's time |
| ProfileNames.NoneLeftOutdated | apps/tracker/tasks/profiles.py:42-45 | with a monotone clock and no alias stamped after the start, no profile is left out of date |
| TaskRunner.RunStaysSound | apps/tracker/utils/aio.py:33-48 | under any schedule permits and holders add up to the concurrency, and callbacks match the tasks that reported |
| TaskRunner.NeverStuck | apps/tracker/utils/aio.py:37-39 | while a task has not finished, some step can be taken |
| TaskRunner.RunManySettles | apps/tracker/utils/aio.py:42-81 | every run ends within 3n steps, can stop only when all tasks have finished, has fired each callback exactly once, and never runs more tasks than allowed |
| StatusFetching.UniqueKeepsOrder | apps/tracker/managers/server.py:361-362 | the result dictionary has each server once, in the order of first occurrence |
| StatusFetching.FetchStatus | apps/tracker/managers/server.py:353-376 | under any schedule each server ends with exactly the outcome its own task reported; none is left unset |
| ServerListing.ServerManager.ListedServers | apps/tracker/managers/server.py:70-74 | each enabled and listed server is asked once |
| ServerListing.ServerManager.RefreshStatus | apps/tracker/managers/server.py:378-436 | replies are split into live, failed and wrong port, and exactly the live statuses are cached |
| ServerListing.SignalsRefresh | apps/tracker/signals.py:58-83 | the two signals together reset live servers, add one failure to failed ones and leave all others |
| ServerListing.ServerManager.RefreshListedServers | apps/tracker/tasks/servers.py:24-57 | of the enabled and listed servers those that answer with their own port lose their failures and have the answer cached, those that answer with another port stay as they are, and all others gain one failure; no other row or status changes |
| ServerListing.ServerManager.UnlistFailedServers | apps/tracker/tasks/servers.py:60-85 | exactly the listed servers at the tolerance lose listing and cached status |
| ServerListing.ServerManager.RegisterServer | apps/api/serializers.py:243-316 | a registration is accepted if and only if the server is not listed and answers validly at its port; it is then listed with no failures and its answer cached |
| ServerListing.ServerManager.RelistServers | apps/tracker/managers/server.py:275-276 | exactly the named servers join those listed; only those that join change, and they start without failures |
| ListingRuns.StreakIsSinceFresh | apps/tracker/managers/server.py:266-273 | the streak counts the misses since the last reply or listing |
| ListingRuns.RunFaithful | apps/tracker/signals.py:58-103 | over any run of refreshes, unlistings, relistings, registrations, discoveries and merges a listed server's failures equal its streak, the cache holds the last reply to a refresh or a registration, and only listed servers are cached |
| ListingRuns.UnlistIffStreak | apps/tracker/managers/server.py:269-279 | the task drops a server if and only if it is listed and its streak has reached the tolerance |
| ListingRuns.DroppedOnlyAfterStreak | apps/tracker/tasks/servers.py:65-80 | a server loses its listing in no other way, and its cached status with it |
| Replacement.WithoutIff | apps/tracker/utils/misc.py:42-42 | removal leaves exactly the text's pieces put together, when it is cut at the occurrences of the part from left to right, and it is the only text so left |
| NameCleaning.ForceCleanName | apps/tracker/utils/misc.py:36-43 | the loop ends and returns the cleaned name, which `CleanedName` describes |
| NameCleaning.SearchIffTag | apps/tracker/utils/misc.py:38-41 | the search finds nothing if and only if no stretch of the text is a tag |
| NameCleaning.LetterTags | apps/tracker/utils/misc.py:38-38 | b, c and u in brackets are tags, in either case, alone or behind a slash or backslash |
| NameCleaning.ColourTags | apps/tracker/utils/misc.py:38-38 | a bracketed c, any sign that is no word character and any text without brackets are a tag |
| NameCleaning.CleanedName | apps/tracker/utils/misc.py:36-43 | rounds lead from the name to a text without tags, each taking nothing but its first tag, wherever that occurs, and the result is that text without the white space around it; a name without tags is only stripped, no tag is left, even one that removals exposed, and cleaning again changes nothing |
| NameCleaning.ForcedName | apps/tracker/utils/misc.py:46-63 | a forced name is never empty and has no tag |

## Left out

- Replica lag and races inside a task: the replica equals the primary, and each task or transaction is one step.
- Games saved to a server merged meanwhile: excluded from the run invariants; `MergeRuns.SaveKeepsGoodIffUnmerged` says what they break.
- Manual changes by administrators, migrations and fill commands: they can break the run invariants.
- How servers are discovered and probed, sockets, time-outs, Redis and Celery: replies, arrivals and schedules are inputs.
- Callbacks that raise, and cancellation of tasks: no callback the repository passes raises.
- StatusFetching.FetchStatus: schedules are sequences of whole steps; the first-come order of semaphore waiters is not modelled, any order is allowed.
- Width of integer columns: counts, failures and points are unbounded.
- Rounding of ratios to four places: points are reals.
- MergedStats.ServerStatsManager.UpdateAnnualStatsForProfile: does not model the tables per player, map, game type and weapon that the same transaction writes; they take the same upsert with other columns.
- Statistics per player, map, game type and weapon: the same upsert and ranking with other columns; only the per-server aggregates are modelled.
- Rows without a category: the category and its legacy number are taken to agree.
- PlayerTotals.MergedStanding: the remaining game modes are neither versus nor cooperative, as in the code; CO-OP QMM is one of them.
- MergedStatsRuns.MergeThenStatsConserve: takes the guard on the profile's years as given; `ConservationRuns.RunConserves` derives it over runs.
- Percent coding: `JuliaRoundTrip.QueryBack` and `JuliaRoundTrip.RoundTrip` take any pair of functions of which decoding undoes encoding and coded texts hold no separator.
- JuliaParser.JuliaQueryString.Expand: nested dictionaries and lists are values, so sharing between two of them is not modelled; the order of a dictionary's keys is an input.
- Validation schemas of statuses and games: a status passes validation or not, as an input.
- Host names refreshed from live replies: one comparison and one update per server.
- Whois replies: the library's result and the description's first line are inputs, as is whether an address is reserved.
- Letter case and word characters: `NameCleaning` takes the word-character class and the address digest as parameters.
- Ratings, search vectors, headlines, pagination, serializers other than the registration, and throttling: interface or library behaviour.
