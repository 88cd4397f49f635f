# ChipTally (biryanibliss) game manager, modelled in Dafny

ChipTally is an iOS app for tracking a home card game. Players buy in for a fixed
number of credits. The app keeps the pot (credits per buy-in times the number of
players) and each player's buy-ins, credits and score. At the end of a game it
collects each player's final credits, checks that they add up to the pot, and
ranks the players.

This project models the app's state holder, `GameManager`, as a Dafny class
with the same four fields. It also models the guarded handlers and validators
that the views wrap around the manager:

- the setup screen's stepper and buy-in field;
- the Add Player sheet;
- the game screen's player cards;
- the score board;
- the end-of-game entry screen;
- the leaderboard.

Files and modules:

| file | module | models |
|---|---|---|
| `wrappers.dfy` | `Wrappers` | `Option` |
| `text.dfy` | `Text` | trimming, lower-casing, printing `Int`s, `Int(String)` and `Double(String)`, `abs`, `Int(Double)` |
| `player.dfy` | `Game` | `Player`, `GameManager` and the pure list functions that specify its methods |
| `add_player.dfy` | `AddPlayer` | the `addPlayer()` validation and the sheet's state |
| `game_end.dfy` | `GameEnd` | final-credit entries, the Finish gate, `onAppear` seeding, the Finish commit loop |
| `leaderboard.dfy` | `Leaderboard` | ranking, winner, positions, profit/loss text, icons and colours |
| `setup.dfy` | `Setup` | the number-of-players stepper, the buy-in field and Start Game |
| `game_play.dfy` | `GamePlay` | buy-in buttons, the name editor and Restart |
| `score_board.dfy` | `ScoreBoard` | Reset All, the score buttons and the typed score |

Modelling choices:

- **Credits.** The Swift `Double`s are exact `real`s. Buy-ins and scores are unbounded `int`s.
- **Ids.** A `UUID` is a `PlayerId`. Methods that make a player take the fresh id as a parameter. The manager's invariant `Valid()` says no two players share an id; every method that changes the players keeps it.
- **Mutable state.** Methods that change state are methods on a class and name the fields they change in `modifies`. The view handlers that act on the manager take it as a parameter, as the views hold it.
- **Specifications.** Each state-changing method is specified by a pure function of the old state: `EditFirst`, `DefaultRoster`, `Restarted`, `SeedEntries`, `CommitFinals` and `ScoresCleared`. The lemmas then prove what the app promises about those functions.
- **Parsing.** `Double(String)` is read as plain decimal numerals: an optional sign, digits and at most one '.', with at least one digit. `Int(String)` is an optional sign and digits whose value fits in 64 bits.
- **Text.** Trimming and lower-casing act on ASCII whitespace and ASCII letters.

## Model

| member | source | states |
|---|---|---|
| `Text.TrimStart` | biryanibliss/AddPlayerView.swift:160 | leading whitespace is dropped: the result is a suffix, what was dropped is whitespace, and the result does not start with whitespace |
| `Text.TrimEnd` | biryanibliss/AddPlayerView.swift:160 | trailing whitespace is dropped: the result is a prefix, what was dropped is whitespace, and the result does not end with whitespace |
| `Text.Trim` | biryanibliss/AddPlayerView.swift:160 | `trimmingCharacters(in: .whitespacesAndNewlines)`: never longer than the input, and neither starts nor ends with whitespace |
| `Text.TrimIsSlice` | biryanibliss/AddPlayerView.swift:160 | what trimming keeps is a contiguous slice of the input whose outside is all whitespace |
| `Text.TrimStartOfTrimmed` | biryanibliss/AddPlayerView.swift:160 | a string that does not start with whitespace loses nothing at the front |
| `Text.TrimEndOfTrimmed` | biryanibliss/AddPlayerView.swift:160 | a string that does not end with whitespace loses nothing at the back |
| `Text.TrimIdempotent` | biryanibliss/AddPlayerView.swift:160 | trimming twice is the same as trimming once |
| `Text.Lower` | biryanibliss/AddPlayerView.swift:176 | `lowercased()` on ASCII: the length is kept, no capital letter is left, every other character is unchanged, and each character becomes itself or its other case |
| `Text.LowerIdempotent` | biryanibliss/AddPlayerView.swift:176 | lower-casing twice is lower-casing once |
| `Text.LowerEqualIff` | biryanibliss/AddPlayerView.swift:176 | two names lower-case alike exactly when they have the same length and agree letter by letter up to ASCII case, which is what the duplicate-name check compares |
| `Text.LowerAppend` | biryanibliss/AddPlayerView.swift:176 | lower-casing distributes over concatenation |
| `Text.LowerOfDigits` | biryanibliss/AddPlayerView.swift:176 | lower-casing leaves digits unchanged |
| `Text.NatToString` | biryanibliss/GameEndView.swift:151 | the decimal spelling is non-empty, all digits, and has no leading zero |
| `Text.IntToString` | biryanibliss/GameEndView.swift:151 | `String(Int)`: digits, with a leading '-' exactly for negative numbers |
| `Text.DigitsValueOfNat` | biryanibliss/GameEndView.swift:151 | reading the printed digits back gives the number |
| `Text.NatToStringInjective` | biryanibliss/Player.swift:45-46 | different numbers print differently |
| `Text.ParseInt` | biryanibliss/ScoreBoardView.swift:238 | `Int(String)` yields only values within the 64-bit range |
| `Text.ParseIntOfIntToString` | biryanibliss/ScoreBoardView.swift:216-238 | an `Int` printed and parsed back is the same `Int` |
| `Text.ScanDecimal` | biryanibliss/GameEndView.swift:12 | an accepted unsigned numeral holds only digits and '.', has at least one digit, has no '.' after one was seen, and its value is never negative |
| `Text.ParseNumber` | biryanibliss/GameEndView.swift:19 | `Double(String)` on plain numerals: an accepted text contains a digit, starts with a digit, a sign or '.', has only digits and '.' after its first character, and is negative only after a leading '-' |
| `Text.ScanDigits` | biryanibliss/GameEndView.swift:12 | on a string of digits only, with no '.' seen yet, the scan yields exactly the decimal value of those digits |
| `Text.ScanOfNat` | biryanibliss/GameEndView.swift:151 | a printed natural number scans back to its value |
| `Text.ParseNumberOfIntToString` | biryanibliss/GameEndView.swift:151 | an `Int` printed and read back with `Double(String)` is the same value |
| `Text.ParseNumberOfPlusNat` | biryanibliss/LeaderboardView.swift:210 | "+" followed by a printed number reads back as that number |
| `Text.ParseNumberOfMinusNat` | biryanibliss/LeaderboardView.swift:212 | "-" followed by a printed number reads back as its negation |
| `Text.Abs` | biryanibliss/GameEndView.swift:23 | `abs` is non-negative and is either the value or its negation |
| `Text.Trunc` | biryanibliss/GameEndView.swift:151 | `Int(Double)` truncates toward zero: for x >= 0 the result is at most x and within 1 below it, and for negative x the mirror image |
| `Game.ShareOf` | biryanibliss/Player.swift:26-28 | for n > 0 the share times n is the pot, and with no players it is 0 |
| `Game.ShareOfPotFor` | biryanibliss/Player.swift:26-40 | splitting the pot computed from a buy-in gives back that buy-in |
| `Game.NewPlayer` | biryanibliss/Player.swift:10-15 | `Player.init`: buy-ins 1, credits 0 and score 0 unless given; the fresh `UUID()` is the id argument (a definition, used by the methods and lemmas below) |
| `Game.SumCredits` | biryanibliss/Player.swift:91-93 | the players' credits summed left to right (a definition; `SumCreditsAppend` and `SumCreditsEditCredits` are proved about it) |
| `Game.IdSet` | biryanibliss/GameEndView.swift:17-22 | every player's id is in the set |
| `Game.IdSetMember` | biryanibliss/GameEndView.swift:17-22 | every id in the set belongs to some player |
| `Game.FindIndex` | biryanibliss/Player.swift:67 | `firstIndex(where:)`: the first index carrying the id, or none when no player has it |
| `Game.FindIndexDistinct` | biryanibliss/Player.swift:67 | with distinct ids, looking up a player's id finds that player |
| `Game.SumCreditsAppend` | biryanibliss/Player.swift:91-93 | the credit total of a concatenation is the sum of the totals |
| `Game.EditFirst` | biryanibliss/Player.swift:66-89 | only the first player with the id is edited; length, order and ids are kept; every other player is unchanged; an unknown id changes nothing |
| `Game.EditFirstDistinct` | biryanibliss/Player.swift:66-89 | with distinct ids, exactly the player carrying the id is edited |
| `Game.EditFirstKeepsIdsDistinct` | biryanibliss/Player.swift:66-89 | an edit by id keeps the ids distinct |
| `Game.AppendFreshKeepsIdsDistinct` | biryanibliss/Player.swift:4 | appending a player with a new id keeps the ids distinct |
| `Game.SumCreditsEditCredits` | biryanibliss/Player.swift:79-93 | setting one player's credits moves the total by exactly the change in that player's credits |
| `Game.DefaultRoster` | biryanibliss/Player.swift:42-53 | one player per id |
| `Game.Restarted` | biryanibliss/Player.swift:102-117 | the list keeps its length |
| `Game.DefaultNameSpelled` | biryanibliss/Player.swift:45-46 | the i-th default name is "Player " followed by i + 1 |
| `Game.DefaultNamesDistinct` | biryanibliss/Player.swift:45-46 | no two default names are equal, even ignoring case |
| `Game.DefaultRosterCredits` | biryanibliss/Player.swift:42-53 | the default roster's credits add up to the buy-in times the number of players, and it has one buy-in per player |
| `Game.DefaultRosterIdsDistinct` | biryanibliss/Player.swift:42-53 | distinct fresh ids give a default roster with distinct ids |
| `Game.RestartedCredits` | biryanibliss/Player.swift:102-117 | after a restart the credits add up to the buy-in times the total number of buy-ins |
| `Game.GameManager.constructor` | biryanibliss/Player.swift:20-32 | a fresh manager has no players (so no shared ids), 5 players configured, 200 per buy-in and a pot of 1000 that agrees with them |
| `Game.GameManager.CreditsPerPlayer` | biryanibliss/Player.swift:26-28 | the pot split evenly (0 with no players), which is the buy-in whenever the pot agrees with the settings |
| `Game.GameManager.UpdateCreditsPerBuyIn` | biryanibliss/Player.swift:34-36 | the buy-in becomes the even share of the pot; only that field changes |
| `Game.GameManager.UpdateTotalPotCredits` | biryanibliss/Player.swift:38-40 | the pot becomes the buy-in times the number of players; only that field changes |
| `Game.GameManager.GenerateDefaultPlayers` | biryanibliss/Player.swift:42-53 | for 0 <= n <= 12 and n distinct fresh ids the list becomes exactly "Player 1".."Player n", with one buy-in, a buy-in's credits and score 0 each, and no two players share an id |
| `Game.GameManager.AddPlayer` | biryanibliss/Player.swift:55-58 | a player with a fresh id is appended, exactly one, with the name as given, one buy-in, a buy-in's credits and score 0; the ids stay distinct |
| `Game.GameManager.RemovePlayer` | biryanibliss/Player.swift:60-64 | an index in range removes that player and keeps the rest in order; an index past the end changes nothing; the ids stay distinct |
| `Game.GameManager.UpdatePlayerName` | biryanibliss/Player.swift:66-70 | the list is the old list with the first matching player renamed; the ids stay distinct |
| `Game.GameManager.UpdatePlayerBuyIns` | biryanibliss/Player.swift:72-77 | the first matching player gets the new buy-ins and that many buy-ins' worth of credits, including 0 for 0; the ids stay distinct |
| `Game.GameManager.UpdatePlayerCredits` | biryanibliss/Player.swift:79-83 | the first matching player gets the new credits; the ids stay distinct |
| `Game.GameManager.UpdatePlayerScore` | biryanibliss/Player.swift:85-89 | the first matching player gets the new score; the ids stay distinct |
| `Game.GameManager.GetTotalPotInCredits` | biryanibliss/Player.swift:91-93 | `getTotalPotInCredits()` is `SumCredits` of the players (a definition) |
| `Game.GameManager.ResetGame` | biryanibliss/Player.swift:95-100 | the manager is back in exactly its initial state, with no players |
| `Game.GameManager.StartNewGameWithSameSettings` | biryanibliss/Player.swift:102-117 | every player gets back their buy-ins' worth and score 0; names, ids, buy-ins and settings are kept; the pot is recomputed; the ids stay distinct |
| `AddPlayer.Validate` | biryanibliss/AddPlayerView.swift:159-187 | each rejection happens exactly when its check is the first to fail, in the source's order; acceptance happens exactly when all pass; the accepted name is the trimmed input |
| `AddPlayer.ValidateIgnoresSurroundingSpace` | biryanibliss/AddPlayerView.swift:160 | surrounding whitespace never changes the verdict |
| `AddPlayer.AcceptedNameIsTrimmed` | biryanibliss/AddPlayerView.swift:160-190 | an accepted name is already trimmed, at least 2 characters long, and neither starts nor ends with whitespace |
| `AddPlayer.AcceptedKeepsCapacity` | biryanibliss/AddPlayerView.swift:183-190 | an accepted add never takes the roster past the configured number of players |
| `AddPlayer.AcceptedKeepsNamesDistinct` | biryanibliss/AddPlayerView.swift:176-190 | if no two names clash ignoring case before an accepted add, none do after it |
| `AddPlayer.DefaultRosterNamesDistinct` | biryanibliss/Player.swift:42-53 | the generated roster's names never clash ignoring case |
| `AddPlayer.HasNameIgnoringCase` | biryanibliss/AddPlayerView.swift:176 | some player's name equals the name after lower-casing both (a definition; with `LowerEqualIff` it is equality up to ASCII case) |
| `AddPlayer.Message` | biryanibliss/AddPlayerView.swift:164-184 | the four alert texts, one per rejection (a definition, used by `Submit`) |
| `AddPlayer.AddPlayerForm.constructor` | biryanibliss/AddPlayerView.swift:3-8 | the sheet opens with an empty field and no alert |
| `AddPlayer.AddPlayerForm.Submit` | biryanibliss/AddPlayerView.swift:159-193 | a rejection shows its message and leaves the players and the field alone; an acceptance appends exactly one player with the trimmed name and the fresh id, clears the field and closes the sheet; the ids stay distinct |
| `GameEnd.TotalRemoveKey` | biryanibliss/GameEndView.swift:11-13 | the total of the entries does not depend on the order in which the dictionary is summed |
| `GameEnd.TotalFinalCredits` | biryanibliss/GameEndView.swift:11-13 | `totalFinalCredits`: the parsed entries summed over the dictionary, in any order (a ghost definition; `TotalRemoveKey` shows the order does not matter) |
| `GameEnd.FinishEnabled` | biryanibliss/GameEndView.swift:15-24 | `isFinishEnabled`: every player has a non-empty entry that parses, and the total is within 0.01 of the pot (a ghost definition) |
| `GameEnd.StatusText` | biryanibliss/GameEndView.swift:74 | "✓ Match" exactly when Finish is enabled; otherwise the text holds the gap truncated to whole credits, and it reads back as that number |
| `GameEnd.Seed` | biryanibliss/GameEndView.swift:150-151 | the text put in an entry: the buy-ins' worth truncated to an `Int` and printed (a definition; `SeedIsNumeric` is proved about it) |
| `GameEnd.SeedIsNumeric` | biryanibliss/GameEndView.swift:150-151 | a seeded entry is non-empty and reads back as the buy-ins' worth truncated to an `Int` |
| `GameEnd.CommitFinal` | biryanibliss/GameEndView.swift:104-107 | committing one player can change only their credits: id, name, buy-ins and score are kept |
| `GameEnd.CommitFinalTakesEntry` | biryanibliss/GameEndView.swift:105-107 | a player with a numeric entry ends with exactly the value that entry adds to the total |
| `GameEnd.CommitFinals` | biryanibliss/GameEndView.swift:104-109 | the list keeps its length |
| `GameEnd.CommitFinalsIds` | biryanibliss/GameEndView.swift:104-109 | committing keeps the length and every player's id, in order |
| `GameEnd.CommitFinalsAgree` | biryanibliss/GameEndView.swift:104-109 | committing depends only on the entries of the listed players |
| `GameEnd.EnteredWithout` | biryanibliss/GameEndView.swift:17-22 | dropping an entry that no player carries keeps every player entered |
| `GameEnd.EntriesOfInit` | biryanibliss/GameEndView.swift:11-22 | dropping the last player and their entry leaves every other player entered, and entries keyed exactly by the rest |
| `GameEnd.CommitSumsEntries` | biryanibliss/GameEndView.swift:11-13 | with distinct ids and one numeric entry per player, the committed credits add up to exactly the entries' total |
| `GameEnd.FinishBalancesPot` | biryanibliss/GameEndView.swift:15-24 | once entries that pass the gate are committed, the players' credits add up to the pot within 0.01 |
| `GameEnd.SeedEntries` | biryanibliss/GameEndView.swift:147-153 | the entries after `onAppear` walked the players in order, each entry set to its seed (a definition; the four lemmas below are proved about it) |
| `GameEnd.SeedEntriesKeys` | biryanibliss/GameEndView.swift:147-153 | seeding adds exactly the players' ids to the keys |
| `GameEnd.SeedEntriesKeepsOthers` | biryanibliss/GameEndView.swift:147-153 | entries of anyone not on the list are left as they were |
| `GameEnd.SeedEntriesEntered` | biryanibliss/GameEndView.swift:147-153 | after seeding every player has a numeric entry, even when ids repeat |
| `GameEnd.SeedEntriesValues` | biryanibliss/GameEndView.swift:147-153 | with distinct ids each player's entry is their own buy-ins' worth, truncated |
| `GameEnd.CommitPrefix` | biryanibliss/GameEndView.swift:104-109 | the list part-way through the loop keeps its length |
| `GameEnd.CommitPrefixIds` | biryanibliss/GameEndView.swift:104-109 | part-way through the loop every player keeps their id |
| `GameEnd.CommitStepEdited` | biryanibliss/GameEndView.swift:104-107 | one loop step with an entry that parses: updating credits by id commits exactly that player |
| `GameEnd.CommitStepSkipped` | biryanibliss/GameEndView.swift:105-106 | one loop step with no entry, or one that does not parse: the player is left as is |
| `GameEnd.GameEndScreen.constructor` | biryanibliss/GameEndView.swift:8-9 | the screen opens with no entries and the leaderboard hidden |
| `GameEnd.GameEndScreen.Appear` | biryanibliss/GameEndView.swift:147-153 | the entries are the seeded ones: every player entered with their own seed (the manager's ids are distinct), entries for anyone not on the list untouched, and no new entry for anyone not on the list |
| `GameEnd.GameEndScreen.EditEntry` | biryanibliss/GameEndView.swift:91-93 | typing replaces exactly that player's entry |
| `GameEnd.GameEndScreen.CommitEntries` | biryanibliss/GameEndView.swift:104-109 | the players become exactly the committed list, and the ids stay distinct |
| `GameEnd.GameEndScreen.Finish` | biryanibliss/GameEndView.swift:102-128 | callable only when the gate holds; the players become the committed list and the leaderboard is shown; with entries only for current players the credits then match the pot within 0.01 |
| `Leaderboard.SortedCons` | biryanibliss/LeaderboardView.swift:10-12 | a player with at least the head's credits can go in front of a ranking |
| `Leaderboard.InsertByCredits` | biryanibliss/LeaderboardView.swift:10-12 | insertion into a ranking adds exactly that player and keeps it ordered |
| `Leaderboard.SortByCredits` | biryanibliss/LeaderboardView.swift:10-12 | `sortedPlayers` is a permutation of the players, in non-increasing order of credits |
| `Leaderboard.Winner` | biryanibliss/LeaderboardView.swift:35-54 | there is no winner exactly when there are no players; otherwise the winner is one of them with the most credits |
| `Leaderboard.Standings` | biryanibliss/LeaderboardView.swift:63-68 | each row's position is its index plus 1, the rows are in ranking order, and the first row is the winner |
| `Leaderboard.ProfitLoss` | biryanibliss/LeaderboardView.swift:199-202 | `profitLoss`: final credits less buy-ins times the buy-in (a definition; the three lemmas below are proved about it) |
| `Leaderboard.ProfitLossNets` | biryanibliss/LeaderboardView.swift:199-202 | profits and losses over all players net to the credits in play less the total paid in |
| `Leaderboard.ProfitLossAfterBuyIns` | biryanibliss/LeaderboardView.swift:199-202 | a player whose buy-ins were just set is exactly even |
| `Leaderboard.ProfitLossAfterRestart` | biryanibliss/LeaderboardView.swift:199-202 | after a restart with the same settings nobody is up or down |
| `Leaderboard.ProfitLossText` | biryanibliss/LeaderboardView.swift:208-214 | '+' exactly for a profit or break-even, '-' exactly for a loss, then digits; it reads back as the amount truncated toward zero |
| `Leaderboard.ProfitLossColor` | biryanibliss/LeaderboardView.swift:204-206 | green from 0 up, red below (a definition; `ProfitLossColorMatchesSign` ties it to the text) |
| `Leaderboard.ProfitLossColorMatchesSign` | biryanibliss/LeaderboardView.swift:204-214 | green exactly with '+', red exactly with '-' |
| `Leaderboard.PositionColor` | biryanibliss/LeaderboardView.swift:181-188 | yellow, gray and orange for 1, 2 and 3, blue otherwise (a definition; `MedalColors` is proved about it) |
| `Leaderboard.MedalColors` | biryanibliss/LeaderboardView.swift:181-188 | positions 1-3 have three different colours, and every other position is blue |
| `Leaderboard.PositionIcon` | biryanibliss/LeaderboardView.swift:190-197 | the three filled medal circles, then "n.circle" (a definition; `PositionIconInjective` is proved about it) |
| `Leaderboard.PositionIconInjective` | biryanibliss/LeaderboardView.swift:190-197 | different positions get different icon names |
| `Leaderboard.StandingIconsDistinct` | biryanibliss/LeaderboardView.swift:190-197 | no two rows of the standings show the same icon |
| `Setup.Step` | biryanibliss/ContentView.swift:77-98 | a press changes the count exactly when its guard allows; minus lowers it by one above 1, plus raises it by one below 12; 1..12 is kept |
| `Setup.StepsStayInRange` | biryanibliss/ContentView.swift:77-98 | no run of presses takes a count in 1..12 out of it |
| `Setup.StepsFromDefaultFitNames` | biryanibliss/ContentView.swift:77-98 | from the default 5, every reachable count can index the twelve default names, as `generateDefaultPlayers` needs |
| `Setup.StepsMoveAtMostOnePerPress` | biryanibliss/ContentView.swift:77-98 | k presses move the count by at most k |
| `Setup.SetupScreen.constructor` | biryanibliss/ContentView.swift:11 | the screen owns a fresh manager in its initial state, the count is in 1..12, and the game is not shown yet |
| `Setup.SetupScreen.MinusTapped` | biryanibliss/ContentView.swift:77-81 | the count follows `Step(Minus)` and stays in 1..12, the pot is recomputed when it moves, and a consistent pot stays consistent |
| `Setup.SetupScreen.PlusTapped` | biryanibliss/ContentView.swift:94-98 | the count follows `Step(Plus)` and stays in 1..12, the pot is recomputed when it moves, and a consistent pot stays consistent |
| `Setup.SetupScreen.BuyInEdited` | biryanibliss/ContentView.swift:51-59 | the buy-in takes the typed value, and `onChange` recomputes the pot exactly when the value changed |
| `Setup.SetupScreen.StartGame` | biryanibliss/ContentView.swift:139-142 | with distinct fresh ids the default players are generated, their ids are distinct, their credits add up to the pot, and the game is shown |
| `GamePlay.BuyInRequest` | biryanibliss/GamePlayView.swift:237-254 | minus asks for one fewer exactly when there are more than 1; plus asks for one more; a request from 1 or more is never below 1 |
| `GamePlay.BuyInsStayPositive` | biryanibliss/GamePlayView.swift:237-254 | no run of button presses takes a player below one buy-in |
| `GamePlay.BuyInEditKeepsPositive` | biryanibliss/GamePlayView.swift:95-97 | a buy-in edit of at least one keeps every player at one buy-in or more |
| `GamePlay.BuyInTapped` | biryanibliss/GamePlayView.swift:237-254 | an answered request sets that player's buy-ins and credits through `updatePlayerBuyIns`; otherwise nothing changes; the ids stay distinct |
| `GamePlay.NameEdit` | biryanibliss/GamePlayView.swift:287-291 | a rename is made exactly when the trimmed text has at least 2 characters, and it uses the trimmed text |
| `GamePlay.NameEditMatchesAddLengthRules` | biryanibliss/GamePlayView.swift:287-291 | a rename passes exactly when adding that name would fail neither the empty check nor the length check |
| `GamePlay.NameEditIdempotent` | biryanibliss/GamePlayView.swift:288 | applying the editor to its own result gives the same name |
| `GamePlay.NameUpdateTapped` | biryanibliss/GamePlayView.swift:287-291 | an accepted rename goes to that player by id; otherwise nothing changes; the ids stay distinct |
| `GamePlay.RestartConfirmed` | biryanibliss/GamePlayView.swift:166-169 | the manager is back in its initial state |
| `ScoreBoard.ScoresCleared` | biryanibliss/ScoreBoardView.swift:77-81 | the list keeps its length |
| `ScoreBoard.ScoresClearedKeepsAllButScore` | biryanibliss/ScoreBoardView.swift:77-81 | every score is 0; ids, names, buy-ins and credits are unchanged |
| `ScoreBoard.ScoresClearedIdempotent` | biryanibliss/ScoreBoardView.swift:77-81 | Reset All twice is the same as once |
| `ScoreBoard.ScoresClearedKeepsCredits` | biryanibliss/ScoreBoardView.swift:77-81 | Reset All leaves the credit total as it was |
| `ScoreBoard.ResetAllScores` | biryanibliss/ScoreBoardView.swift:77-81 | the in-place loop leaves exactly the scores-cleared list, and the ids stay distinct |
| `ScoreBoard.ScoreRequest` | biryanibliss/ScoreBoardView.swift:202-221 | minus asks for exactly one less, with no floor, and plus for exactly one more |
| `ScoreBoard.AfterTap` | biryanibliss/ScoreBoardView.swift:202-221 | the list after a tap on a card showing the player as listed keeps its length (the specification of a tap) |
| `ScoreBoard.AfterTapChangesOneScore` | biryanibliss/ScoreBoardView.swift:202-221 | a tap changes that player's score by one and leaves every other player and field as it was |
| `ScoreBoard.OppositeTapsRestore` | biryanibliss/ScoreBoardView.swift:202-221 | a minus tap then a plus tap on the same card, or plus then minus, gives back the player list |
| `ScoreBoard.ScoreEditLastWins` | biryanibliss/Player.swift:85-89 | a second score write to the same id replaces the first |
| `ScoreBoard.ScoreEditSameScore` | biryanibliss/Player.swift:85-89 | writing a player's own current score changes nothing |
| `ScoreBoard.ScoreTapped` | biryanibliss/ScoreBoardView.swift:202-221 | the requested score goes to that player through `updatePlayerScore`; the ids stay distinct |
| `ScoreBoard.ScoreTyped` | biryanibliss/ScoreBoardView.swift:237-241 | a text that parses as an `Int` sets that player's score; any other text changes nothing; the ids stay distinct |
| `ScoreBoard.PrefilledScoreKeepsPlayers` | biryanibliss/ScoreBoardView.swift:216-241 | confirming the prefilled score text unedited changes nothing |

## Left out

- SwiftUI layout, sheets, alerts, navigation and `dismiss()` are presentation only. They appear only as the boolean flags the handlers set.
- BouncingImageView.swift and PrivacyPolicyView.swift are not part of this model: they are animation and static text.
- The UI tests and the performance tests are not part of this model.
- `Codable` and the JSON round-trip are left out, because `JSONEncoder` and `JSONDecoder` are foreign code.
- Favorite groups, game sessions, `createGameSession` and persistence are left out. They are not defined in the source files.
- `Double` arithmetic is exact `real` arithmetic here. Rounding is not modelled, including the 333.33 precision case.
- `Int(Double)` is truncation toward zero. Swift's trap on values outside the 64-bit range is not modelled.
- `score ± 1` and `buyIns ± 1` are unbounded. Swift's overflow trap at the 64-bit limits is not modelled.
- `Text.Trim`: only ASCII whitespace is trimmed, not Unicode's `.whitespacesAndNewlines`.
- `Text.Lower`: only ASCII letters are lowered, so the duplicate-name check is ASCII case-insensitive.
- `count` is the length of the `seq<char>`, not the number of grapheme clusters.
- `Text.ParseNumber` reads plain decimal numerals only. The exponents, hexadecimal floats, `inf` and `nan` that `Double(String)` also accepts are not modelled, and every numeral is read as an exact value.
- UUID generation is outside the model: fresh ids come in as parameters. The methods that create players require them to be new, which is what `UUID()` provides, and `GameManager.Valid()` records that no two players share an id.
- `Leaderboard.SortByCredits`: ties are kept in list order. Swift's `sorted` does not promise stability, so the proved contract says nothing about the order of tied players.
- `GameEnd.GameEndScreen.Finish`: the balance within 0.01 is promised when the entries belong only to current players. An entry left over for a removed player counts in the Swift total but in no player's credits.
- `GameEnd.TotalFinalCredits` and `GameEnd.StatusText` are ghost. Summing a dictionary picks keys in no fixed order, which Dafny can state but not compute.
- Typing into the buy-in field of the setup screen is a real value. The number formatter that turns the text into a `Double` is not modelled.
