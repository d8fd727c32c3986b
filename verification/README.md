# Verification of four stateful components of the game server

The project models, in Dafny, the tournament engine, the world-chat ring, the mission engine and the
robot's line reader, and proves that whole runs of them do what they are for. `dafny verify
dfyconfig.toml` checks everything.

## The tournament engine (`main/game/match.cpp`)

`Matches.Match` is the match record: two flat arrays of records, written in place by `TeamInit`,
`TeamResult`, `EliInit` and `EliResult` with the source's scans, guards, placeholder eids and return
codes. Two ghost fields hold what the arrays mean:

- `teams`: for every group a roster of four and five pairings (`Groups`). The twelve records of the
  group are a function of that (`Groups.Seat`), and `TeamStages.Rendered` says that the array holds
  exactly those records. A report on the array is one step of one pairing (`TeamStages.After`).
- `bracket`: finalists and one pairing per inner node of a heap-numbered tree (`Brackets`). Record
  n-1-t is a function of node t (`EliStages.NodeRecord`, `EliStages.BracketRendered`).

Everything said about tournaments is proved on these two abstract forms: the points race (`Duels`), the
double elimination of a group, the bracket, the hand-over between them, absence of deadlock, the outcome
of a whole tournament and the number of reports it takes. Applications to a match and their duplicate
check are in `Rosters`, what initialisation writes is in `Layouts`. `Tournaments` takes a match from its
creation to its champion, knowing the operations by their contracts only.

The abstract forms could be right among themselves and still not be the source's. So every operation also
says what it does in the fields of the records alone, in numbers: `Reports` for reports and questions for
the next opponent, `Openings` for both initialisations and the display. The same is done for the other
components: events and refreshes in the fields of missions, designs and cards (`Missions.EventTold`,
`Missions.RefreshAnswer`), the chat ring in its array and its three counters, and the commands byte by
byte (`Lines.CutAt`, `Lines.QueuedFrom`).

Four promises turn out to hold only under a condition, and the condition is proved:

- A report on round 3 of a group is accepted even when the pairing is already decided. Accepted
  reports bring the stage closer to its end exactly when the pairing is open
  (`TeamStages.ProgressIffOpen`); two late reports let three of four members qualify
  (`TeamStages.LateReportsLetThreeThrough`). The theorems about the length of runs therefore speak of
  legal reports: opponents of an open pairing, with a result code that counts. For the outcome the exact
  condition is known for any reports between players: a finished group is a correct double elimination
  if and only if no report left both sides of its round 3 with five points (`TeamStages.AnyRunOutcome`);
  the function answers these, and only these, with -7 (`TeamStages.PointErrorCode`).
- The report guards do not ask whether the two eids are two players, and let others through
  (`TeamStages.GuardsLetPlaceholdersThrough`). A counted report that is let through and names two eids
  keeps the groups sound if and only if both are players (`TeamStages.SoundIffPlayers`). One that names
  an eid twice writes both sides of the game on one record; from a fair stage the list then shows no
  fair stage any more, whatever seat that is (`TeamStages.SelfReportShowsNothing`). Eid 0 is let through against itself in
  every stage, and after two such reports it is collected as a finalist
  (`TeamStages.ZeroLetThrough`, `EliStages.ZeroGetsThrough`).
- `match_eli_init` clears neither points nor the tid of the last record. After a finished team stage it
  leaves a proper bracket if and only if half the number of players is a power of two, no round 3 was
  won by both sides and the elimination records were still blank (`Matches.Match.EliInit`).
- The duplicate check of an application stops at the first free slot. It is right exactly when the player
  is not listed behind that slot (`Rosters.ApplyKeepsNoDuplicates`), and wrong after a cancellation
  (`Rosters.HoleLetsDuplicateIn`).

The source checks only that the number of players is a multiple of four; the elimination layout names
every node exactly when half that number is a power of two (`Brackets.LayoutFitsPowersOfTwo`), and the
statements about brackets ask for that. The comment at main/game/match.cpp:64-77 numbers the
elimination records from 2n down to 1; the code numbers them from n-1 down to 0 and the model follows
the code.

## The world-chat ring (`main/game/gchat_queue.cpp`)

`ChatRing.WorldChat` keeps the array, head, tail and head timestamp, and a ghost log of every accepted
message. Every operation is stated on the log. The capacity is any number from 2 up.

## The mission engine (`main/game/mission.cpp`)

`Missions` holds the operations on the mission array and their meaning entry by entry; `MissionRuns` is
about any sequence of updates, refreshes and finishes over a fixed design, from an empty list. The
clock is one parameter per refresh; the reset instant is day arithmetic in days of 86400 seconds. The
comment before main/game/mission.cpp:330 says that ready and OK missions are updated; the code updates
ready ones only, and so does the model.

## The line reader (`main/tool/robot.cpp`)

`Lines` says what is to be delivered: the stream cut at newlines, trimmed, blanks dropped.
`LineReader.Robot` is the reader with its buffer, cache and NUL-terminated texts, over a socket that
hands out arbitrary nonempty chunks. The socket
can be given the sizes of its chunks. Lines of at most max-2 bytes are read however the stream arrives;
byte by byte, only those are, so success for every arrival means exactly that. A terminated line of max-1
bytes is read when chunks end where lines end, an unterminated one never is, and longer lines never
are; with chunks of that kind this is exactly when the reader succeeds (`LineReader.ReadStream`).

## Model

| member | source | states |
|---|---|---|
| `Duels.FairStep` | main/game/match.cpp:769-803 | A counted report on an open pairing keeps the race fair, is one more game and leaves fewer games to come. |
| `Duels.PointsRace` | main/game/match.cpp:769-815 | Any list of counted reports, each sent while the race is open: the scores sum to three per game, there are at most three games, a decision takes two or three and has exactly one side at five or more. |
| `Duels.LateReportsBreakTheRace` | main/game/match.cpp:798-801 | Concrete reports after the decision that bring both sides to five points. |
| `Duels.SelfReportIsUnfair` | main/game/match.cpp:769-803 | Both sides of a game written on one of a pairing's two records always spoil its race. |
| `Groups.Placeholders` | main/game/match.cpp:325-388 | The placeholder for (winner or loser, tid, round) is in the group exactly while that pairing is open, and only at the seat reserved for it. |
| `Groups.SeatHolders` | main/game/match.cpp:307-388 | A seat holds a member of its own group, a placeholder or nobody. |
| `Groups.OneSeatPerRound` | main/game/match.cpp:724-739 | No player holds two seats of one round. |
| `Groups.SeatChain` | main/game/match.cpp:724-739 | A member's seats fill rounds 1 to its latest without a gap, and the latest is the largest round. |
| `Groups.GuardsMeanPairing` | main/game/match.cpp:752-761 | Same round and tid means exactly: the two seats of one pairing; in rounds 1 and 2 that pairing is then still open. |
| `Groups.MovedOn` | main/game/match.cpp:817-884 | A decided pairing's winner and loser sit on the seats it feeds, as real players. |
| `Groups.OpenSeatIsCurrent` | main/game/match.cpp:724-739 | Both players of an open pairing have that pairing's seats as their latest. |
| `Groups.SomePairingPlayable` | main/game/match.cpp:711-890 | An unfinished group always has an open pairing with two known players. |
| `Groups.StepMovesOnlyFed` | main/game/match.cpp:817-884 | A report changes who sits where only at the seats its pairing feeds. |
| `Groups.StepKeepsSound` | main/game/match.cpp:711-890 | What every report between opponents keeps, and what it keeps in addition when the pairing is open. |
| `Groups.SoundIffStaffed` | main/game/match.cpp:741-815 | A counted report on the two seats of an open pairing keeps the group sound if and only if both are held by players. |
| `Groups.MemberOutcome` | main/game/match.cpp:307-388 | In a finished group a member has two pairing wins exactly when it gets through, and two losses exactly when it does not. |
| `Groups.GroupOutcome` | main/game/match.cpp:307-388 | A sound finished group is a correct double elimination (exactly two of the round-3 records have five points, two different members, with two wins each; the others have two losses) if and only if its round 3 was not won by both sides. |
| `Groups.TeamBounds` | main/game/match.cpp:769-815 | A group takes at most fifteen games, and at least ten to finish. |
| `TeamStages.AfterKeepsSound` | main/game/match.cpp:711-890 | Any report, legal or not, leaves all groups sound and all rosters unchanged. |
| `TeamStages.AfterKeepsFair` | main/game/match.cpp:711-890 | A legal report is accepted, keeps all groups fair, counts one game and brings the stage closer to its end. |
| `TeamStages.ProgressIffOpen` | main/game/match.cpp:752-815 | An accepted report brings the stage closer to its end exactly when its pairing is open. |
| `TeamStages.LateReportsLetThreeThrough` | main/game/match.cpp:752-815 | In every finished fair group, whoever won round 3, two late wins of the other side are accepted and make three qualifiers. |
| `TeamStages.QualifierCount` | main/game/match.cpp:413-420 | A finished group has two qualifiers exactly when round 3 was not won by both sides, else three. |
| `TeamStages.SomeReportLegal` | main/game/match.cpp:1044-1085 | In every unfinished sound stage, late reports or not, some report is legal, and its two players are each other's next opponent. |
| `TeamStages.StatesAreFair` | main/game/match.cpp:711-890 | Every state of a run of legal reports is fair and has seen as many games as reports. |
| `TeamStages.TeamStageLength` | main/game/match.cpp:711-890 | No legal run is longer than 15 reports a team, and one that finishes the stage has at least 10 a team. |
| `TeamStages.TeamStageOutcome` | main/game/match.cpp:711-890 | In whatever order legal reports come, every team that gets finished is a correct double elimination of its original roster. |
| `TeamStages.PointErrorMeansLate` | main/game/match.cpp:806-809 | After a report round 3 is won by both sides exactly when it was before or the report left both sides with five points. |
| `TeamStages.PointErrorCode` | main/game/match.cpp:806-809 | The reports on round 3 that leave both sides with five points are exactly those answered -7. |
| `TeamStages.AnyRunOutcome` | main/game/match.cpp:711-890 | After any run of reports between players, legal or not, a finished team is a correct double elimination of its original roster if and only if no report left both sides of its round 3 with five points. |
| `TeamStages.LegalHasNoPointError` | main/game/match.cpp:711-890 | Legal reports are reports between players, and none of them leaves both sides of a round 3 with five points. |
| `TeamStages.ScanFindsSeat` | main/game/match.cpp:724-739 | On the flat list, the first record with the largest round of an eid, player or placeholder, is its latest seat; a player's is its current seat. |
| `TeamStages.LatestOfPlayer` | main/game/match.cpp:724-739 | A player has a latest seat exactly when it is enrolled, and it is its current seat in its team. |
| `TeamStages.GuardCodeOfPlayers` | main/game/match.cpp:741-761 | For two players, comparing the fields of the two found records gives the verdict stated on the groups. |
| `TeamStages.GuardsLetPlaceholdersThrough` | main/game/match.cpp:741-761 | Concrete eids that are no two players and are let through, after which a group is not sound; and any eid named twice is let through. |
| `TeamStages.PairLetThrough` | main/game/match.cpp:741-761 | A report of any two eids that is let through is on one pairing, open or in round 3, which is staffed exactly when they are two players. |
| `TeamStages.SoundIffPlayers` | main/game/match.cpp:741-815 | A counted report that is let through and names two eids keeps the stage sound if and only if both are players. |
| `TeamStages.SelfReportShowsNothing` | main/game/match.cpp:724-809 | After a counted report in a fair stage that names one eid twice, on any seat, 10 and 11 included, the list shows no fair stage; except on round 3's pairing the same holds of sound stages. |
| `TeamStages.ZeroLetThrough` | main/game/match.cpp:724-761 | Eid 0 named twice is let through in every stage and found on the last record of the first group. |
| `TeamStages.AcceptedReport` | main/game/match.cpp:741-761 | A report between players that is let through has found the two seats of one pairing, staffed and, before round 3, open. |
| `TeamStages.RenderedAfterReport` | main/game/match.cpp:769-884 | The records one report writes turn the picture of the old groups into the picture of the new ones. |
| `TeamStages.OtherTeamsUntouched` | main/game/match.cpp:711-890 | A report for one team changes no record of another. |
| `Rosters.ApplyKeepsNoDuplicates` | main/game/match.cpp:238-250 | An accepted application keeps the roster free of duplicates exactly when the player is not listed behind the first free slot. |
| `Rosters.NoHolesNoDuplicates` | main/game/match.cpp:238-250 | Without earlier cancellations the duplicate check is complete. |
| `Rosters.HoleLetsDuplicateIn` | main/game/match.cpp:238-266 | After a cancellation a player can apply a second time. |
| `Rosters.PermutationKeepsNoDuplicates` | main/game/match.cpp:289-297 | A reshuffled roster lists the same players, none twice. |
| `Brackets.LayoutFitsPowersOfTwo` | main/game/match.cpp:437-448 | Rows of f, f/2, f/4, ... name all nodes 1 to 2f-1 exactly when f is a power of two. |
| `Brackets.ChildHeight` | main/game/match.cpp:437-448 | Siblings share a round, and their parent's round is the next. |
| `Brackets.RowIsHeight` | main/game/match.cpp:437-448 | The row a record is laid out in is the height of its node. |
| `Brackets.FilledMeansDecided` | main/game/match.cpp:995-1012 | An inner node is filled exactly when its pairing is decided, and by the winning child's player. |
| `Brackets.HolderIsAbove` | main/game/match.cpp:893-1020 | A node's holder is a finalist, and the node lies on the way up from that finalist's leaf. |
| `Brackets.SeatsFormChain` | main/game/match.cpp:893-1020 | A finalist holds exactly the nodes from its leaf up to its furthest, one on each level. |
| `Brackets.CurrentIsUnique` | main/game/match.cpp:911-923 | A held node whose parent is not held is the finalist's furthest node, and there is only one. |
| `Brackets.StepMovesOnlyOne` | main/game/match.cpp:995-1012 | A report moves somebody only into the node of its own pairing. |
| `Brackets.StepKeepsBracket` | main/game/match.cpp:893-1020 | A counted report on an open pairing keeps the bracket sound. |
| `Brackets.AcceptedMeansOpen` | main/game/match.cpp:902-944 | What the guards accept is an open pairing of two known players with a code that counts. |
| `Brackets.OpenPairingAccepted` | main/game/match.cpp:902-944 | Every open pairing with two known players is accepted, whichever player is named first. |
| `Brackets.SomeNodePlayable` | main/game/match.cpp:893-1020 | Below every open pairing there is one with both players known. |
| `Brackets.FinalComesLast` | main/game/match.cpp:995-1012 | When the final is decided, so is every other pairing. |
| `Brackets.LossIsWhereTheChainEnds` | main/game/match.cpp:893-1020 | A finalist has lost at most one pairing: the one above its furthest node, once that is decided. |
| `Brackets.ChampionAndLosers` | main/game/match.cpp:893-1020 | When node 1 is filled all pairings are decided, its holder won every pairing on its path and lost none, every other finalist lost exactly one. |
| `Brackets.StatesAreSound` | main/game/match.cpp:893-1020 | Every state of a run of accepted reports is sound, over the same finalists, and has seen as many games as reports. |
| `Brackets.EliminationLength` | main/game/match.cpp:946-995 | With F finalists no run is longer than 3(F-1) accepted reports, and one with a champion has at least 2(F-1). |
| `Brackets.EliminationOutcome` | main/game/match.cpp:893-1020 | In whatever order accepted reports come, nobody loses twice, and with a champion everybody else has lost exactly once. |
| `EliStages.ScanFindsNode` | main/game/match.cpp:911-923 | On the flat list, the record with a finalist's largest round is record n-1-t of its furthest node t. |
| `EliStages.ScanFindsOpenFinal` | main/game/match.cpp:1088-1104 | With an eid that is no finalist's the scan finds nothing but the open final, for the placeholder -1. |
| `EliStages.NodesDecide` | main/game/match.cpp:929-944 | Comparing the two found records gives the verdict stated on the bracket, the pairing's node and its two records. |
| `EliStages.RenderedAfterEliReport` | main/game/match.cpp:946-1012 | The records one report writes turn the picture of the old bracket into the picture of the new one. |
| `EliStages.SomeEliReportAccepted` | main/game/match.cpp:1088-1120 | Without a champion some report is accepted, and its two players are each other's next opponent. |
| `EliStages.CollectedAreQualified` | main/game/match.cpp:413-425 | The scan over round 3 collects exactly the qualifiers of all teams, team by team. |
| `EliStages.HandOver` | main/game/match.cpp:404-433 | What teams hand over are different enrolled players: of finished teams exactly two each, and one more for every round 3 won by both sides; of fair teams never more than two. |
| `EliStages.ZeroGetsThrough` | main/game/match.cpp:413-425 | After two counted reports that name eid 0 twice, the scan of round 3 collects it as a finalist. |
| `EliStages.TournamentOutcome` | main/game/match.cpp:711-1020 | A whole tournament, with any reports between players that leave no round 3 with two winners: the finalists are drawn players, exactly those with two pairing wins in their team; everybody else has two losses there; the champion lost no elimination pairing and every other finalist exactly one. |
| `EliStages.WindowInTree` | main/game/match.cpp:526-553 | The tids listed for display are nodes of the tree, so the closed-form index stays in the list, if and only if the tid asked for is at least -1 and less than four times the number of players. |
| `EliStages.TournamentLength` | main/game/match.cpp:711-1020 | A tournament of T teams and F = 2T finalists takes between 10T + 2(F-1) and 15T + 3(F-1) reports. |
| `Reports.TeamAnswered` | main/game/match.cpp:711-890 | Every report of the team stage, told in the fields of the records: codes, counters, placeholders. |
| `Reports.TeamReportInFields` | main/game/match.cpp:769-884 | The same for two players, from the guards to the last record written. |
| `Reports.SelfReportInFields` | main/game/match.cpp:769-809 | A player named twice has both sides of the game on its one record. |
| `Reports.NextInFields` | main/game/match.cpp:1044-1085 | The next opponent is somebody else's record of the same team, round and tid, if there is one. |
| `Reports.EliReportAnswered` | main/game/match.cpp:893-1020 | Every report of the elimination stage between finalists, told in the fields of the records. |
| `Reports.EliNextInFields` | main/game/match.cpp:1088-1120 | The opponent is on the record of the tid beside the finalist's own. |
| `Openings.DrawOpensAll` | main/game/match.cpp:300-388 | The twelve records of every drawn team, in numbers. |
| `Openings.FreshBracketOpens` | main/game/match.cpp:437-448 | The records of a fresh bracket: round 4 for the finalists, each row one round more, no round of the team stage. |
| `Openings.HandedOver` | main/game/match.cpp:413-425 | The eids handed over are those on a record of round 3 with five points. |
| `Layouts.DrawIsRendered` | main/game/match.cpp:300-388 | The records written by initialisation are those of freshly drawn groups. |
| `Layouts.DrawIsProper` | main/game/match.cpp:274-395 | The drawn groups are sound if and only if the roster before the shuffle lists different real players, and then they are fresh. |
| `Layouts.LaidOutDecides` | main/game/match.cpp:404-448 | The laid-out list is a proper bracket if and only if there are as many qualifiers as leaves, a power of two of them, and the list was blank. |
| `Matches.Match.Create` | main/game/match.cpp:211-229 | Any multiple of four is taken as the size, and the record is in shape exactly when the arrays can hold it; another size or a negative round time is refused (the size is kept in the second case); a zeroed match is then open for applications. |
| `Matches.Match.Apply` | main/game/match.cpp:232-253 | For any list: the code, and the first free slot or the player's own; the one record written; and exactly when a roster without duplicates stays so. |
| `Matches.Match.Cancel` | main/game/match.cpp:256-270 | For any list: the record of the first entry of the player is cleared and no other touched, or an error and no change; on a roster without duplicates the player is gone. |
| `Matches.Match.Shuffle` | main/game/match.cpp:289-297 | Whatever the random choices, the records are permuted and nothing else changes. |
| `Matches.Match.TeamInit` | main/game/match.cpp:274-395 | For any roster and any shuffle the array shows the groups drawn from a permutation of it, sound and fresh if and only if the roster lists different real players; a free slot is reported and nothing is started. In the records (`Openings.AllOpened`): the twelve of every team with their rounds, tids, placeholders and empty counters. |
| `Matches.Match.GetPlayer` | main/game/match.cpp:132-156 | The four-slot search finds a record with that eid, or there is none with that eid, round and team. |
| `Matches.Match.FindLatest` | main/game/match.cpp:724-739 | The scan returns the first record of the eid with its largest round, or there is none. |
| `Matches.Match.CheckReport` | main/game/match.cpp:741-761 | For any two eids: the guards' code, and for a report let through the records of the two latest seats. |
| `Matches.Match.SendOn` | main/game/match.cpp:817-884 | Winner and loser are written on the two reserved records, the undefeated one with two wins and six points, and no other record changes. |
| `Matches.Match.TeamResult` | main/game/match.cpp:711-890 | For any eids: a rejected report changes nothing and is answered with the guards' code; one of two eids is a step of their pairing, and for two players the stated report; one that names an eid twice is written on its one record. Of the counted reports let through, exactly those between two players leave a valid stage. In the records (`Reports.TeamAnswer`): the codes by the fields of the two records of the largest round; one game's counters on them, a draw with upper 1 giving 1 point to the first and 2 to the second; and on a decision before round 3 the records with the two placeholders, and no other. |
| `Matches.Match.TeamNext` | main/game/match.cpp:1044-1085 | For any eid: the record facing its latest seat, or none for the undefeated player of round 3; an error for a stranger. In the records (`Reports.TeamNextAnswer`): for a player somebody else's record of the same team, round and tid. |
| `Matches.Match.Collect` | main/game/match.cpp:413-425 | The front of the list gets exactly the eids of the records with five points, in order. |
| `Matches.Match.LayOut` | main/game/match.cpp:437-448 | Every laid-out record i gets the round of its row and tid n-1-i; nothing else changes. |
| `Matches.Match.EliInit` | main/game/match.cpp:398-453 | For any state of the groups: the first half is a permutation of the first qualifiers filled up with -1, the rest is as collected. After a finished team stage the array shows a proper fresh bracket, over exactly the qualifiers, if and only if half the players is a power of two, no round 3 was won by both sides and the records were blank. The eids collected are those of round 3 with five points. A proper bracket shows round 4 for the finalists and one more with every halving, tids descending, nobody above the finalists (`Openings.BracketOpened`). |
| `Matches.Match.CheckEliReport` | main/game/match.cpp:902-944 | The guards' code is the verdict stated on the bracket, with the two records and the parent's tid. |
| `Matches.Match.FindTid` | main/game/match.cpp:997-1016 | The linear search by tid always succeeds and ends at record n-1-tid. |
| `Matches.Match.EliResult` | main/game/match.cpp:893-1020 | For any two finalists the array afterwards shows exactly the bracket after this report, with the stated return code; a rejected report changes nothing. In the records (`Reports.EliAnswer`): the codes, the counters of the two records as in the team stage, and on a decision the record with half the tid, and no other. |
| `Matches.Match.EliNext` | main/game/match.cpp:1088-1120 | For any eid: the record of the sibling of the finalist's furthest node; the unused last record for the champion, and for the placeholder -1 while the final is open; an error for a stranger. In the records (`Reports.EliNextAnswer`): the record of the tid beside the finalist's own. |
| `Matches.Match.EliData` | main/game/match.cpp:511-577 | The records shown are those of the listed nodes, without a mismatch. They are the record of the node above, its children and its grandchildren, as far as there are any (`Openings.Displayed`). |
| `Tournaments.StartMatch` | main/game/match.cpp:1863-1891 | Creating a match, applying and drawing, through the contracts alone: a fresh team stage over a permutation of the applicants. |
| `Tournaments.PlayTeamStage` | main/game/match.cpp:1893-1931 | Any reports between players and the hand-over: the groups come from the draw by a run of these reports, and the bracket is proper exactly under the stated condition, and then fresh. |
| `Tournaments.PlayElimination` | main/game/match.cpp:893-1020 | Any reports of the elimination stage: those accepted are a run of the bracket. |
| `Tournaments.FinishTournament` | main/game/match.cpp:893-1020 | Whatever elimination reports follow a team stage without two winners in a round 3, once there is a champion the tournament was correct for every drawn player. |
| `ChatRing.Retention` | main/game/gchat_queue.cpp:85-99 | Of n messages the newest min(n, m - m/2) are always kept, and the ring is never full between operations. |
| `ChatRing.ClosedForm` | main/game/gchat_queue.cpp:92-99 | The head has advanced by 0 while n < m, and by s(1 + (n-m)/s) with s = m/2 from then on. |
| `ChatRing.WorldChat.Add` | main/game/gchat_queue.cpp:71-101 | An accepted message is appended to the log and the window stays right; a missing or too long one is refused without any change. The array changes at the tail only; tail, head and timestamp are given as numbers. |
| `ChatRing.WorldChat.DropHalf` | main/game/gchat_queue.cpp:92-99 | Head and timestamp move by half the capacity, around the end of the array. |
| `ChatRing.RefinesNext` | main/game/gchat_queue.cpp:81-99 | A message written at the tail, with the window moved by half when the ring has run full, keeps the ring a window of the log. |
| `ChatRing.WorldChat.Get` | main/game/gchat_queue.cpp:106-118 | The logged message for every timestamp in the window, nothing outside; the newest half is always inside. |
| `ChatRing.WorldChat.TailTs` | main/game/gchat_queue.cpp:41-54 | The initial timestamp plus the number of accepted messages. |
| `ChatRing.WorldChat.IndexTs` | main/game/gchat_queue.cpp:132-161 | A slot between head and tail answers with a timestamp in the window that reads this slot back; any other slot, and every slot of a wrapped ring, answers -1. |
| `ChatRing.WorldChat.EmptyMeansNothingAdded` | main/game/gchat_queue.cpp:30-33 | Head equals tail exactly when nothing was ever added. |
| `Missions.MissionUpdate` | main/game/mission.cpp:302-395 | Every entry becomes what the event makes of it, and the flag is set exactly when the list changed. In fields (`Missions.EventTold`): a ready mission moves if and only if type, guild level and parameters match, 0 matching anything and replays and views either of two heroes; seven types take the value, all others add it. |
| `Missions.EitherHero` | main/game/mission.cpp:336-339 | The two heroes of a replay or view can be named in either order, and either one of them counts. |
| `Missions.WildcardsAndGuild` | main/game/mission.cpp:325-349 | A parameter 0 takes every event of the type; a guild level too low takes none. |
| `Missions.DailyTestIsReset` | main/game/mission.cpp:114-137 | The two-case daily test holds exactly when a reset instant lies between the last update and now. A reset instant is a time of r seconds past a multiple of 86400. |
| `Missions.ChangeIsFlagged` | main/game/mission.cpp:417-549 | A refresh changes an entry exactly when it erases it, makes it OK, or takes it in or back to ready. |
| `Missions.AcceptanceKeepsEligibility` | main/game/mission.cpp:480-549 | Taking missions in during a refresh finishes no prerequisite. |
| `Missions.RefreshReachesFixedPoint` | main/game/mission.cpp:407-554 | After a refresh every eligible mission is present, none is unknown, no ready one has met its target and no finished daily one is due. |
| `Missions.RefreshIsIdempotent` | main/game/mission.cpp:407-554 | A second refresh at the same time changes nothing. |
| `Missions.RefreshIsTold` | main/game/mission.cpp:407-554 | Every entry after a refresh, told in the fields of the mission, its design and the cards. |
| `Missions.HeroIsTold` | main/game/mission.cpp:525-538 | The hero condition: none asked for, or one of 1 to 20 with at least one card of its pair. |
| `Missions.CollectionIs` | main/game/mission.cpp:189-198 | The progress of a collection is the number of cards above '0'. |
| `Missions.MissionFromDesign` | main/game/mission.cpp:157-211 | The new mission: level, card digit, number of cards or 0 by type, OK with the time when the target is met, else ready with 0; its code is 2 exactly when the target is met at once, -2 exactly for a card number out of range. |
| `Missions.IsDue` | main/game/mission.cpp:480-540 | The conditions for taking a design mission in, in the fields of the design, the list and the cards. |
| `Missions.MissionRefresh` | main/game/mission.cpp:407-554 | The array becomes the refreshed list; each flag is set exactly when some entry changed that way, and none exactly when the list is unchanged. In fields (`Missions.RefreshAnswer`): what is erased, becomes OK or is reset; an absent mission is taken in if and only if type, levels, prerequisite and one hero of a pair allow it; and what it starts with. |
| `Missions.MissionFinish` | main/game/mission.cpp:245-293 | Only an OK mission becomes finished; every other case has its own code and no change. |
| `MissionRuns.BirthIsRefresh` | main/game/mission.cpp:480-549 | A mission in the list belongs to the design and came in by a refresh. |
| `MissionRuns.PresentStays` | main/game/mission.cpp:420-436 | With a fixed design, what has been accepted stays in the list. |
| `MissionRuns.FinishedBefore` | main/game/mission.cpp:245-293 | A finished mission was finished successfully by an earlier operation, after it came in. |
| `MissionRuns.PrerequisiteCameFirst` | main/game/mission.cpp:507-515 | An accepted mission's prerequisite was accepted in an earlier refresh and finished in between. |
| `MissionRuns.AncestorsCameFirst` | main/game/mission.cpp:507-515 | Accepted missions are closed under prerequisites, each link going back at least one operation. |
| `MissionRuns.CyclesNeverStart` | main/game/mission.cpp:507-515 | No mission on a cycle of prerequisite links is ever accepted. |
| `MissionRuns.NonDailyFinishesOnce` | main/game/mission.cpp:245-293 | A mission that is not daily is finished successfully at most once, in any run. |
| `MissionRuns.CycleStep` | main/game/mission.cpp:433-453 | What every operation keeps about a mission's place in its daily cycle. |
| `MissionRuns.ResetBetweenTargets` | main/game/mission.cpp:433-453 | Between two times at which a mission becomes OK, both included, lies a reset instant, if the clock never runs backwards. |
| `MissionRuns.ResetStrictlyBetweenTargets` | main/game/mission.cpp:433-453 | A reset instant lies after the earlier and not after the later time if and only if the earlier is no reset instant itself or a day lies between them. |
| `MissionRuns.TwiceAtTheResetInstant` | main/game/mission.cpp:433-453 | A concrete run in which a daily mission becomes OK twice at one time, a reset instant. |
| `MissionRuns.ProgressIsTotal` | main/game/mission.cpp:302-395 | A ready counting mission's progress is the sum of all matching events since it was accepted or last reset. |
| `MissionRuns.ProgressIsLastValue` | main/game/mission.cpp:302-395 | A ready mission of a kind that sets values has the value of the last matching event since it was accepted or reset, and before the first one the value it came in with, or 0 after a reset. |
| `MissionRuns.OnlyReadyMoves` | main/game/mission.cpp:330-333 | An update never moves a mission that is OK or finished. |
| `Lines.GluedPieces` | main/tool/robot.cpp:273-277 | The cut loses nothing and leaves no newline in a piece. |
| `Lines.LongestIsMaximum` | main/tool/robot.cpp:311-357 | The length of the longest piece is what its name says. |
| `Lines.TrimIs` | main/tool/robot.cpp:211-235 | Trimming leaves the part between the first and the last byte that is neither newline nor blank. |
| `Lines.TrimNewline` | main/tool/robot.cpp:211-235 | A line with and without its newline is the same command. |
| `Lines.DeliveredIs` | main/tool/robot.cpp:198-235 | What is delivered of a stream, byte by byte: it is cut at '\n'; pieces of '\n' and ' ' only are dropped; of every other one its part without these bytes at the ends is queued, in order. |
| `Lines.CommandOfPiece` | main/tool/robot.cpp:211-235 | A piece is dropped exactly when all its bytes are '\n' or ' '; else its command is a clean part of it with only such bytes around. |
| `Lines.CutIsUnique` | main/tool/robot.cpp:273-277 | There is only one way to cut a stream at its newlines. |
| `LineReader.FindNewline` | main/tool/robot.cpp:292 | The first newline before the terminator, or that there is none. |
| `LineReader.TrimInPlace` | main/tool/robot.cpp:213-235 | The trimmed text, terminated, at the returned position. |
| `LineReader.Robot.TakeCached` | main/tool/robot.cpp:289-316 | The next nonempty cached line, or the whole cache moved to the buffer; no command is lost. |
| `LineReader.Robot.ReadOn` | main/tool/robot.cpp:320-357 | Reading on ends with one complete line, the unterminated end of the stream (which then has less than max-1 bytes), or a line too long for the buffer; the cache never outgrows its array. |
| `LineReader.Robot.ReadLine` | main/tool/robot.cpp:278-361 | One call takes exactly one line off what is pending, byte for byte, without its newline when it came from the cache and after the empty lines there; 0 only at the end of the stream, -2 only when some line has at least max-1 bytes, and with chunks that end with the lines only for one of max bytes or an unterminated one of max-1. |
| `LineReader.Robot.NetLoop` | main/tool/robot.cpp:1591-1621 | However the stream is split into reads, exactly the nonblank trimmed lines are queued, in order, including an unterminated last one, and on failure a prefix of them. Success implies lines below max and an unterminated one below max-1; failure implies a line of at least max-1. Byte by byte it succeeds if and only if all lines are below max-1, line by line if and only if they are below max and the unterminated one below max-1. Every queued command is nonempty and begins and ends with neither a newline nor a blank; on success they are those of the pieces of the stream (`Lines.QueuedFrom`). |
| `LineReader.ReadStream` | main/tool/robot.cpp:1591-1621 | The same from an empty reader, for every stream, buffer size and list of chunk sizes. Its commands are told byte by byte as well. |

## Left out

- Printing, debug output and the text protocol of `match_team_data`, `match_eli_data` and `match_info`: formatting only; of `match_eli_data` the list of records is kept.
- `match_result`, `match_next` and `get_player_last_round`: they choose the stage from round and status, which are driven from outside these files; the stage functions are modelled directly.
- Match id, title, start and round times, icon and alias: they are copied along with the eid and decide nothing.
- Matches.Match.EliResult: asks for two finalists, because the source leaves its record pointers uninitialised otherwise.
- Matches.Match.EliData: asks for a tid of at least -1 and less than four times the number of players; with any other the source's first index already lies outside the bracket's records.
- Matches.Match.EliInit: asks for at least one group.
- Matches.Match.Create: round times are checked but not stored; every other operation asks for a size the arrays can hold.
- Missions: slot i of both lists holds mission i or is empty, a prerequisite is a valid slot and a target is positive, as the loaders ensure.
- Missions: an inconsistent design (changed between operations) is covered by the operations' contracts but not by `MissionRuns`, which fixes the design.
- Local time zones and daylight saving: times count from a local midnight.
- Integer widths: counters, points and timestamps are unbounded.
- The line reader's NUL bytes and read errors, the mutex and condition around the queue, and the fixed-size copy a line passes through on its way into the queue.
- Achievements, database loading, the command-line client, stress tools and scripts: easier variants of the above, or input and output.
