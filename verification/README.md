# GapGame: a verification model

GapGame is a bot for anonymous chats and small two-player games. This project models the parts of
it that keep state, and proves what they keep, in Dafny 4.11.

- **Anonymous chats** (`chat_store.dfy`, `chat_steps.dfy`, `match_worker.dfy`, `chat_runs.dfy`,
  `chat_server.dfy`). A search costs coins and waits in the list of its filter; every two seconds a
  worker refunds searches older than two minutes, pairs the others greedily and opens chats. Four
  structures and the balances have to stay in step.
- **Board games** (`lines.dfy`, `dooz.dfy`, `dooz_board.dfy`). The games of four in a row are side 7
  and length 4, with and without falling pieces, the classic game is side 3 and length 3; the
  theorems hold for every side and length.
- **Word duel** (`text.dfy`, `word_game.dfy`, `word_board.dfy`). Two secrets, two partly revealed
  displays kept as one text each, alternating turns.
- **Rooms** (`rooms.dfy`, `game_rooms.dfy`, `room_manager.dfy`, `decimal.dfy`, `join_link.dfy`). A room
  table, an index from players to rooms, asking a friend for the next game, the games played in the
  rooms, and invitation links.
- **Both together** (`bot_runs.dfy`). One record of chats, shared by the queue and the rooms.
- **Indexes, caches and batches** (`queue_index.dfy`, `queue_manager.dfy`, `user_cache.dfy`,
  `cached_repository.dfy`, `last_seen.dfy`, `last_seen_writer.dfy`).
- **Admin confirmation and rate limit** (`admin.dfy`, `rate_limit.dfy`).

Each part has a specification in functions (a step on a value), lemmas about it up to whole runs,
and the code itself as a class with the source's fields, loops and order of updates, whose methods
are proved to perform exactly those steps. Redis and the database are maps, times are integers, and
each handler or worker tick is one step. What comes from outside, such as the order in which a map or
the lists are visited, the current time, generated ids, cache evictions and which users can be found,
is a parameter or is left open, so the theorems hold for every choice. `options.dfy` holds the one
helper type.

## What the proofs turned up

Where the code does not do what its comments or names say, the code was modelled as it is, and the
exact condition under which it does is a lemma.

- Complementary chat filters, including the two that cost four coins, are paired without looking at
  genders (`GenderFiltersRespectedExactlyWhen`).
- When the store refuses a new chat, both searches are refunded but stay queued (`FailMatchOverpays`),
  and timing out refunds them again (`FailMatchRefundsTwice`).
- The repeat button in a chat swaps seats but not names (`RestartKeepsNamesExactlyWhen`,
  `RestartShowsWrongName`), and it does
  not take back the end mark of a game finished before the chat, so that the new game cannot be played
  (`RestartPlaysExactlyWhen`, `DeadRestartHappens`).
- The word game accepts any type and length text from its buttons (`SecretsPossibleExactlyWhen`,
  `NoSecretFits`).
- An invitation link keeps working after its creator chose another game, with a game type that is no
  longer the room's (`LinkMatchesRoomExactlyWhen`).
- A search for one gender in the indexed queue looks at the searcher's own gender
  (`CandidatesHaveRequestedGenderExactlyWhen`), and enqueuing a user twice spoils the indexes
  (`EnqueueKeepsExactlyWhen`).
- Changing a Telegram id leaves its old cache key behind (`UpdateKeepsExactlyWhen`).
- An invalid admin command does not withdraw the action waiting for confirmation
  (`OldPromptSurvivesExactlyWhen`).

## Model

| member | source | states |
|---|---|---|
| `BotRuns.RunKeepsBot` | internal/bot/08_chat.go:138-281 | over every run of searches, worker ticks, games, requests and endings together: rooms see exactly the chats there are, every room's game is in order, all stores are in step, and nobody's coins appear or disappear |
| `BotRuns.EndChatFreesBoth` | internal/bot/08_chat.go:250-283 | ending a chat leaves neither of its two members in a chat or a room, and only the price stands between either of them and the queue |
| `BotRuns.StepCarries` | internal/bot/08_chat.go:138-281 | each event of either half keeps both halves in order and in agreement |
| `BotRuns.ChatsRunAlone` | internal/bot/08_chat.go:138-281 | whatever happens in the rooms, the chat service's stores go through exactly the run of its own events |
| `ChatRuns.RunConservesCoins` | internal/bot/08_chat.go:138-212 | over every run of joins, worker ticks and chat endings from a consistent state: lists, waiting keys, flags and chats stay in step, and every known user's coins in hand plus coins held by a waiting search plus coins spent on matches never change |
| `ChatRuns.ReachableState` | internal/session/chat.go:44-116 | in every reachable state a user's balance is not negative, the user is in list f exactly once when the waiting key names f and in no other, waiting exactly when flagged, never waiting and chatting at once, holds exactly the price of the filter, shares one identical chat record with one other user who points back, and has a search history in which every charge is closed at most once by one equal refund or match |
| `ChatRuns.StepCarries` | internal/bot/08_chat.go:57-212 | every button, tick or chat ending keeps the stores in step and everyone's wealth |
| `ChatRuns.PursueCarries` | internal/bot/08_chat.go:138-166 | a decision to search, admitted or refused by the two guards or by the balance, keeps the stores in step and everyone's wealth |
| `ChatRuns.PricesAgree` | internal/bot/08_chat.go:44-135 | the connect, nearby and search-again buttons charge the same price for the same filter, and searching again after a timeout charges what the timeout refunded |
| `ChatRuns.ButtonSearchesExactlyWhen` | internal/bot/08_chat.go:57-212 | a press of a search button puts the presser, with gender and time, at the end of the list of the button's own filter and takes that filter's price (2 for a gender, 4 near, 0 otherwise) exactly when the presser neither waits nor chats and has the coins; otherwise nothing changes |
| `ChatRuns.OtherButtonsDoNothing` | internal/bot/08_chat.go:57-113 | other button data, and near search without a location, change nothing |
| `ChatRuns.WorkerTickForOneUser` | internal/bot/match_worker.go:56-98 | a tick pays a search of two minutes its price back and ends it; before that no coin moves, and the user waits on or is in a new chat |
| `ChatRuns.EndIs` | internal/session/chat.go:106-116 | ending a chat takes it from both members and changes nothing else |
| `ChatSteps.JoinKeeps` | internal/bot/08_chat.go:138-212 | a request to search keeps lists, keys, flags and chats in step, every user's wealth, and a well-bracketed history |
| `ChatSteps.JoinShape` | internal/bot/08_chat.go:162-207 | an admitted search moves exactly its cost from the balance into the queue, for that user only, and appends one entry with the user's gender, filter, time and cost to the filter's list |
| `ChatSteps.JoinedExactlyWhen` | internal/bot/08_chat.go:138-207 | a search is admitted exactly when the user neither waits nor chats and has the coins, and otherwise changes nothing |
| `ChatSteps.ExpireKeepsOrder` | internal/bot/match_worker.go:115-125 | paying back leaves the lists as taking the user out left them |
| `ChatSteps.MatchKeepsOrder` | internal/bot/match_worker.go:228-269 | so does a new chat |
| `ChatSteps.ExpireKeeps` | internal/bot/match_worker.go:115-125 | timing a search out conserves wealth, keeps the stores in step and leaves every other entry where it was |
| `ChatSteps.ExpireShape` | internal/bot/match_worker.go:115-125 | the refund is exactly what the entry held, and only its user leaves the queue |
| `ChatSteps.MatchKeeps` | internal/bot/match_worker.go:228-269 | opening a chat conserves wealth, keeps the stores in step and takes exactly the two users out of the queue |
| `ChatSteps.MatchShape` | internal/bot/match_worker.go:228-269 | after a match both users share the one new chat, neither is queued, and no balance moved |
| `ChatSteps.EndChatKeeps` | internal/session/chat.go:106-116 | ending a chat removes it from exactly its two members, whichever of them asks |
| `ChatSteps.FailMatchOverpays` | internal/bot/match_worker.go:240-262 | the branch for a refused chat store pays both costs out while both entries stay queued: it conserves coins exactly when both searches were free |
| `ChatSteps.FailMatchRefundsTwice` | internal/bot/match_worker.go:247-262 | after the failing branch both entries are still listed, and timing either out brings its user twice the cost |
| `ChatSteps.DequeueShape` | internal/bot/match_worker.go:283-295 | leaving the queue clears the list entry, the waiting key and the flag of that user and touches nobody else's entries |
| `ChatSteps.DequeueTakesOut` | internal/bot/match_worker.go:283-295 | the filter read from the waiting key is the one list to scan: afterwards the user is in no list |
| `ChatStore.RemoveFirstAt` | internal/session/chat.go:64-71 | scan and remove takes out the user's first item at its position and keeps the order of the rest |
| `ChatStore.RemoveFirstCounts` | internal/session/chat.go:64-71 | removal takes one item of that user if there is one, and neither items nor coins of anyone else |
| `ChatStore.HeldBy` | internal/bot/08_chat.go:184-192 | a listed entry names its user's waiting filter and holds exactly that filter's price |
| `MatchWorker.TickKeeps` | internal/bot/match_worker.go:56-98 | one worker tick, whatever lists it manages to read, keeps the stores in step and everyone's wealth |
| `MatchWorker.TickLeavesNobodyStale` | internal/bot/match_worker.go:104-138 | after a tick that reads the list, a search whose two minutes are up is no longer waiting |
| `MatchWorker.SuitedDoNotBothWait` | internal/bot/match_worker.go:77-97 | two users in time whose searches suit each other (both random, random and a search for that user's gender, or complementary genders near or far) do not both go on waiting after a tick |
| `MatchWorker.TickForOneUser` | internal/bot/match_worker.go:56-138 | what a tick does to a waiting user whose list is read: timed out and paid back, or untouched in coins and either waiting or chatting |
| `MatchWorker.TickLeavesOthers` | internal/bot/match_worker.go:56-138 | users who do not wait, or wait in a list that was not read, keep their coins, their place and their chat |
| `MatchWorker.SnapshotReadsInOrder` | internal/bot/match_worker.go:153-171 | lists are read in the order of their keys, each from first to last |
| `MatchWorker.TickIsMaximal` | internal/bot/match_worker.go:77-97 | two searches a tick leaves waiting are incompatible in the order they were read |
| `MatchWorker.TickOpensChats` | internal/bot/match_worker.go:228-269 | every pair of the scan is compatible and ends in one chat stored identically under both members with the coins each paid |
| `MatchWorker.GreedyPairs` | internal/bot/match_worker.go:75-97 | the scan yields pairwise disjoint pairs in queue order, each compatible, each first member with its earliest free compatible successor, and no two compatible entries left over |
| `MatchWorker.GreedyIsDisjoint` | internal/bot/match_worker.go:75-97 | no position is in two pairs |
| `MatchWorker.GreedyIsEarliest` | internal/bot/match_worker.go:82-96 | whoever stood between the members of a pair and was compatible with the first had been taken by an earlier pair |
| `MatchWorker.GreedyIsMaximal` | internal/bot/match_worker.go:77-97 | of any two compatible positions at least one is paired |
| `MatchWorker.MatchAllKeeps` | internal/bot/match_worker.go:82-96 | opening all the chats of one scan conserves wealth and keeps the stores in step |
| `MatchWorker.FreshKeepsOrder` | internal/bot/match_worker.go:104-138 | what expiry keeps is the snapshot without its stale entries, each at its place in the old order |
| `MatchWorker.FreshMembers` | internal/bot/match_worker.go:104-138 | an entry is kept exactly when it is still in time, and users stay distinct |
| `MatchWorker.ExpireAllKeeps` | internal/bot/match_worker.go:104-138 | expiring any part of the snapshot conserves wealth, and every entry still in time stays listed |
| `MatchWorker.SnapshotIsQueued` | internal/bot/match_worker.go:144-174 | the entries read for a tick belong to different users and are all really waiting |
| `MatchWorker.SnapshotIsComplete` | internal/bot/match_worker.go:144-174 | nobody waiting in a list that was read is missed by the de-duplication |
| `MatchWorker.CompatibleExactlyWhen` | internal/bot/match_worker.go:177-225 | the complete table of who is paired with whom |
| `MatchWorker.CompatibleIsSymmetricExcept` | internal/bot/match_worker.go:177-225 | the order of two searches matters exactly between nearby and a nearby search for a gender |
| `MatchWorker.GenderFiltersRespectedExactlyWhen` | internal/bot/match_worker.go:177-225 | whatever the profiles' genders, every pair made of two filters gives both searchers the gender they asked for exactly when one filter is random or the filters are not complementary: complementary filters, near or far, are paired without a look at the genders |
| `MatchWorker.GenderFilterIgnored` | internal/bot/match_worker.go:204-225 | a pair the code accepts although one member is not of the gender the other asked for |
| `MatchWorker.NearbyGenderFilterIgnored` | internal/bot/match_worker.go:204-225 | two women are paired although one paid the nearby price for a man |
| `ChatServer.Server.EnqueueChat` | internal/session/chat.go:44-56 | appends to the filter's list and sets the waiting key, and nothing else |
| `ChatServer.Server.RemoveFromQueue` | internal/session/chat.go:58-72 | scan, remove, delete the key: the store operation the invariants are proved about |
| `ChatServer.Server.SetActiveChat` | internal/session/chat.go:78-85 | stores the chat under both members |
| `ChatServer.Server.DeleteActiveChat` | internal/session/chat.go:106-116 | deletes the chat under both members, or only the given key when there is no chat |
| `ChatServer.Server.HasActiveChat` | internal/session/manager.go:497-525 | true exactly when the user has a chat partner |
| `ChatServer.Server.DeductCoins` | internal/service/user.go:530-544 | succeeds exactly when the user is known and can pay, and then takes exactly the amount |
| `ChatServer.Server.AwardCoins` | internal/service/user.go:517-528 | adds the amount to a known user and does nothing otherwise |
| `ChatServer.Server.JoinQueue` | internal/bot/08_chat.go:138-212 | the handler, guard by guard, is the join step proved to conserve coins, and reports whether the user was admitted |
| `ChatServer.Server.ConfirmEndChat` | internal/bot/08_chat.go:250-273 | the handler is the chat-ending step |
| `ChatServer.Server.LeaveLine` | internal/bot/match_worker.go:283-295 | clean-up by waiting filter is the leaving step |
| `ChatServer.Server.GetAllQueueEntries` | internal/bot/match_worker.go:144-174 | the nested loops with the seen map compute the snapshot the tick is proved about |
| `ChatServer.Server.ExpireStaleEntries` | internal/bot/match_worker.go:104-138 | compaction in the same array keeps exactly the fresh entries in order, while the stale ones are removed and refunded |
| `ChatServer.Server.CreateMatch` | internal/bot/match_worker.go:228-269 | its successful path is the match step |
| `ChatServer.Server.RefundMatch` | internal/bot/match_worker.go:247-257 | the failing path pays both costs out and removes nobody from the queue |
| `ChatServer.Server.PairUp` | internal/bot/match_worker.go:75-97 | the nested scan with its matched map performs exactly the greedy pairing |
| `ChatServer.Server.ProcessMatches` | internal/bot/match_worker.go:56-98 | a whole tick of the imperative worker is the tick proved above |
| `Lines.LocalWinIsGlobal` | internal/game/dooz4/dooz4_normal.go:35-75 | on a board of any size without a line of the mark, the scan through the placed cell wins exactly when the whole board now holds a line of the required length in any direction |
| `Lines.FourDirectionsSuffice` | internal/game/dooz4/dooz4_normal.go:37-42 | a line in any of the eight neighbouring directions is a line in one of the four the check tries |
| `Lines.NoLineOfOtherMark` | internal/game/dooz4/dooz4_normal.go:103-109 | placing one mark never completes a line of the other |
| `Lines.CountIsLongestSpan` | internal/game/dooz4/dooz4_normal.go:46-71 | around a marked cell the two scans together reach k exactly when some k cells in a row through the cell are all marked |
| `Lines.StreaksAround` | internal/game/dooz4/dooz4_normal.go:46-69 | the two scans find the whole unbroken run through the cell, closed off on both sides |
| `Dooz.PressKeepsInv` | internal/game/dooz4/dooz4_normal.go:77-173 | a press in any reachable state: refused presses change nothing, accepted ones put one mark on an empty cell, a win is told exactly when the board has a line, a draw exactly when it is full without one, marks stay balanced, and the invariant holds afterwards |
| `Dooz.TargetIsEmptyCell` | internal/game/dooz4/dooz4_gravity.go:102-117 | a gravity press lands in the last empty cell of the column with only pieces beyond it, and is refused exactly when the column is full; in the other games exactly when the cell is taken |
| `Dooz.LandingIsLastEmpty` | internal/game/dooz4/dooz4_gravity.go:102-110 | the falling scan stops at the last empty cell |
| `Dooz.MoverIsNeverStuck` | internal/game/dooz4/dooz4_normal.go:87-101 | while a game runs the player to move always has a press that is accepted |
| `Dooz.GamesEnd` | internal/game/dooz4/dooz4_normal.go:77-173 | over every game of any presses: the invariant holds, each accepted press uses one empty cell, and no game accepts more than n times n presses |
| `DoozBoard.Game.CheckWin` | internal/game/dooz4/dooz4_normal.go:35-75 | the loops over the board array decide the local win |
| `DoozBoard.Game.CountAlong` | internal/game/dooz_classic/dooz_classic.go:44-73 | one direction of the check counts both scans and the cell |
| `DoozBoard.Game.Scan` | internal/game/dooz4/dooz4_normal.go:55-58 | one scan loop counts the run of marks up to the edge or the first other cell |
| `DoozBoard.Game.IsDraw` | internal/game/dooz4/dooz4_normal.go:24-33 | true exactly when no cell is empty |
| `DoozBoard.Game.Reset` | internal/game/dooz4/dooz4_normal.go:17-19 | every cell empty again |
| `DoozBoard.Game.MakeMove` | internal/game/dooz_classic/dooz_classic.go:78-173 | the handler of the normal and the classic game is the press proved above, on the array and the room |
| `DoozBoard.Game.MakeFallingMove` | internal/game/dooz4/dooz4_gravity.go:77-181 | the gravity handler, with its scan for the landing cell, is the press proved above |
| `DoozBoard.Game.Finish` | internal/game/dooz4/dooz4_gravity.go:119-179 | pass the turn, then check win before draw, and reset board and turn at the end of a game |
| `WordGame.GamesEnd` | internal/bot/10_game.go:1123-1342 | over every game: each display shows exactly the guessed letters of the opponent's secret, wrong lists hold the other guesses once each, players' accepted letters differ by at most one, and accepted plus untried letters are always twice the alphabet, so the number of accepted letters is bounded |
| `WordGame.MoverIsNeverStuck` | internal/bot/10_game.go:1295-1306 | until someone wins, the player to move always has a letter, or a number, that is accepted: play stops only by a win |
| `WordGame.StepKeepsInv` | internal/bot/10_game.go:906-1342 | every action, accepted or refused, keeps displays, wrong lists, phases and turns truthful |
| `WordGame.LetterOutcome` | internal/bot/10_game.go:1295-1342 | a letter is refused without effect, or is new to the player, shrinks the untried letters by one, and wins exactly when it completes the secret; otherwise the turn passes |
| `WordGame.LetterAcceptedExactlyWhen` | internal/bot/10_game.go:972-996 | a letter is accepted exactly from the player to move of a running word game, and exactly when it is one letter of the alphabet that player has not guessed |
| `WordGame.NewLetterIs` | internal/bot/10_game.go:1295-1342 | a new letter missing from the secret is written down as wrong, changes nothing else and passes the turn; one in the secret is shown wherever it stands, and wins with the last one or passes the turn |
| `WordGame.NumberAcceptedExactlyWhen` | internal/bot/10_game.go:1185-1232 | a number is accepted exactly from the player to move with the right count of digits; it wins when it is the opponent's and passes the turn otherwise |
| `WordGame.ChoicesAreStored` | internal/bot/10_game.go:906-970 | type and length are stored as chosen, the length for the chooser of the type alone |
| `WordGame.GameStarts` | internal/bot/10_game.go:906-1183 | any two valid secrets of one kind and length start a game: after the four choices everything is hidden and the first seat is to move |
| `WordGame.ValidSecretExactlyWhen` | internal/bot/10_game.go:1472-1496 | one to twelve letters a to z, digits, or letters of the two Arabic blocks, by kind |
| `WordGame.GuessMakesProgress` | internal/bot/10_game.go:1390-1422 | an accepted letter turns up at least one hidden slot or adds one new wrong letter, and the half stays truthful |
| `WordGame.WonMeansRevealed` | internal/bot/10_game.go:1424-1429 | no underscore is left exactly when every letter of the secret was guessed, that is when the display spells the secret |
| `WordGame.AlreadyMeansGuessed` | internal/bot/10_game.go:1380-1388 | the display and the wrong list together tell exactly which letters the player has guessed |
| `WordGame.SlotsAreWords` | internal/bot/10_game.go:1439-1445 | splitting the display gives back one slot a letter of the secret |
| `WordGame.InvGivesSlots` | internal/bot/10_game.go:1402-1409 | in every reachable state the display has a slot for every letter, so turning letters up never misses one |
| `WordGame.SubmitKeepsInv` | internal/bot/10_game.go:1141-1183 | a valid secret of the right length is stored once a player and never replaced, the other player's is untouched, and the second one starts play with everything hidden; any other text changes nothing |
| `WordGame.NumberKeepsInv` | internal/bot/10_game.go:1185-1232 | a number guess wins exactly when it is the opponent's number, and otherwise passes the turn |
| `WordGame.SecretsPossibleExactlyWhen` | internal/bot/10_game.go:906-970 | the type and length handlers accept any callback text; afterwards some secret is accepted exactly when the kind has letters and the length is between 1 and 12 |
| `WordGame.NoSecretFits` | internal/bot/10_game.go:936-970 | a concrete game, set to thirteen letters by its length button, in which every secret of either player is refused |
| `Text.FieldsOfJoin` | internal/bot/10_game.go:1413-1445 | joining words with blanks and splitting on white space gives the words back |
| `Text.JoinContains` | internal/bot/10_game.go:1424-1429 | a mark other than the blank is in the joined display exactly when it is in a slot |
| `WordBoard.GameWordGuess.constructor` | internal/game/word_guess/word_guess.go:13-41 | a new game starts in the phase of choosing a type with nothing hidden or guessed |
| `WordBoard.GameWordGuess.Reset` | internal/game/word_guess/word_guess.go:43-62 | after a reset the game is indistinguishable from a new one, while the room's end mark stays as it was |
| `WordBoard.GameWordGuess.PickType` | internal/bot/10_game.go:906-934 | the type handler's step |
| `WordBoard.GameWordGuess.PickLength` | internal/bot/10_game.go:936-970 | the length handler's step, for the creator only |
| `WordBoard.GameWordGuess.TakeSecret` | internal/bot/10_game.go:1141-1183 | the secret handler on the flat fields is the submission step |
| `WordBoard.GameWordGuess.Hidden` | internal/bot/10_game.go:1431-1437 | one underscore a letter, joined by blanks |
| `WordBoard.GameWordGuess.TurnUp` | internal/bot/10_game.go:1401-1413 | the loop turns up exactly the positions of the letter and reports whether there was one |
| `WordBoard.GameWordGuess.ApplyGuess` | internal/bot/10_game.go:1390-1422 | display and wrong list of the guesser change as the guess step says, the other player's not at all |
| `WordBoard.GameWordGuess.AlreadyTried` | internal/bot/10_game.go:1380-1388 | reads the guesser's own display and wrong list |
| `WordBoard.GameWordGuess.PassTurn` | internal/bot/10_game.go:1372-1378 | the turn goes to the other seat |
| `WordBoard.GameWordGuess.PlayerHasWon` | internal/bot/10_game.go:1424-1429 | reads the player's own display |
| `WordBoard.GameWordGuess.TakeLetter` | internal/bot/10_game.go:1295-1342 | the letter handlers are the letter step |
| `WordBoard.GameWordGuess.TakeNumber` | internal/bot/10_game.go:1185-1232 | the number handler is the number step |
| `Rooms.RunKeepsRooms` | internal/game/game_manager/two_players_room.go:93-219 | over every run of game choices, links, chat games, moves, endings, requests and chats: a player key points to a room exactly when the player sits in it, a pending request means a finished game and a requester in the room, and each next game was requested by one member and accepted by the other after the game before it was over |
| `Rooms.RestartShowsWrongName` | internal/bot/10_game.go:298-303 | a concrete run after which the second player is shown under the first one's name |
| `Rooms.StepKeepsPairs` | internal/bot/08_chat.go:270-281 | partners always point at each other |
| `Rooms.NobodyInTwoRooms` | internal/game/game_manager/two_players_room.go:105-121 | no player sits in two rooms |
| `Rooms.RoomOfMember` | internal/game/game_manager/two_players_room.go:181-193 | looking a player up finds exactly the room the player sits in |
| `Rooms.SaveKeeps` | internal/game/game_manager/two_players_room.go:93-122 | saving keeps keys and rooms in agreement when the room's members sit nowhere else |
| `Rooms.RemoveKeeps` | internal/game/game_manager/two_players_room.go:195-211 | removing a room drops exactly its members' keys |
| `Rooms.RemoveOfKeeps` | internal/game/game_manager/two_players_room.go:213-219 | exactly the player's room and its members' keys go, and no key dangles |
| `Rooms.CreateKeeps` | internal/game/game_manager/two_players_room.go:124-139 | a new room for a player without one keeps the agreement |
| `Rooms.JoinKeeps` | internal/game/game_manager/two_players_room.go:141-156 | taking the free seat keeps the agreement and the history of agreed games |
| `Rooms.SwapKeepsNames` | internal/bot/10_game.go:160-166 | the seat swap puts the given player first and changes nobody's name |
| `Rooms.AcceptOk` | internal/bot/10_game.go:168-192 | accepting starts the requested game with the requester to move, no request left, and every name as before |
| `Rooms.AcceptKeeps` | internal/bot/10_game.go:370-389 | accepting, outside a chat, exactly what the other member requested starts that game in the same room in its initial state, without end mark or request, the requester first and to move and all names kept; anything else changes nothing |
| `Rooms.RejectKeeps` | internal/bot/10_game.go:391-399 | rejecting withdraws the request and leaves the rest of the room as it was |
| `Rooms.AskOk` | internal/bot/10_game.go:140-158 | a request is recorded, with its game and who asked, exactly when the game is over; nothing else of the room changes |
| `Rooms.RepeatKeeps` | internal/bot/10_game.go:281-303 | repeating is a request for the same game between friends and a restart with the presser first inside a chat |
| `Rooms.FinishKeeps` | internal/bot/10_game.go:258-277 | finishing closes the presser's room for everyone in it |
| `Rooms.EventsLeaveOthers` | internal/game/game_manager/two_players_room.go:93-219 | every event leaves the rooms and keys of players it is not about exactly as they are |
| `Rooms.SeatedPlayersAreNamed` | internal/game/game_manager/two_players_room.go:35-55 | a seated player goes by the stored name, else by the first name |
| `Rooms.GameReplacedOnlyByAccept` | internal/bot/10_game.go:370-389 | a room's game changes, or reopens after its end, only when the other member accepts exactly the pending request; the requester then moves first |
| `Rooms.RestartKeepsNamesExactlyWhen` | internal/bot/10_game.go:298-303 | the repeat button in a chat swaps the seats without the names: with known names both players keep theirs exactly when the presser already sat first or the names agree |
| `Rooms.SelectKeeps` | internal/bot/10_game.go:194-236 | choosing a game is refused inside a chat with a room, becomes a request to a seated friend, or opens a new room of one's own and removes the one still waiting; the room facts hold after each |
| `Rooms.JoinLinkKeeps` | internal/bot/10_game.go:409-426 | the follower takes the free seat of the creator's room exactly when he has no room, is not the creator and the seat is free |
| `Rooms.ChatAcceptKeeps` | internal/bot/10_game.go:702-743 | accepting a chat game changes nothing while either partner has a room, and otherwise puts both into one new room of that game |
| `Rooms.MoveKeeps` | internal/bot/10_game.go:458-484 | a move is refused after the end; otherwise it is saved, and one that ends the game removes the room and both keys inside a chat, or leaves it over and without a request between friends |
| `Rooms.EndDareKeeps` | internal/bot/10_game.go:566-623 | ending a dare game changes no room of another game, removes the room inside a chat and marks it as over between friends |
| `Rooms.ChatEndsKeeps` | internal/bot/08_chat.go:270-281 | ending a chat leaves neither partner in any room |
| `GameManager.LiveRoom.EnsurePlayerFirst` | internal/bot/10_game.go:160-166 | the in-place swap is the seat swap proved above |
| `GameManager.LiveRoom.Reset` | internal/game/game_manager/two_players_room.go:221-232 | turn, end mark and request cleared, the game's own state set back, seats and names kept |
| `GameManager.LiveRoom.MarkOver` | internal/bot/10_game.go:130-132 | the in-place end of a game |
| `GameManager.LiveRoom.Request` | internal/bot/10_game.go:144-152 | refused without effect while a game runs, recorded otherwise |
| `GameManager.LiveRoom.StartAgreed` | internal/bot/10_game.go:168-173 | swap, replace, reset and hand out the turn, in the source's order, is the agreed start |
| `GameManager.LiveRoom.RestartInChat` | internal/bot/10_game.go:298-303 | the in-place restart: seats, turn and the game's own state, but neither names nor end mark |
| `GameManager.RoomManager.SaveRoom` | internal/game/game_manager/two_players_room.go:93-122 | the room and both player keys written |
| `GameManager.RoomManager.CreateRoom` | internal/game/game_manager/two_players_room.go:124-139 | a fresh id, the creator seated and to move, everything saved |
| `GameManager.RoomManager.JoinRoom` | internal/game/game_manager/two_players_room.go:141-156 | succeeds exactly when the room exists with a free seat, and otherwise changes nothing |
| `GameManager.RoomManager.GetRoomByID` | internal/game/game_manager/two_players_room.go:158-179 | the stored room as a new object, null when there is none |
| `GameManager.RoomManager.GetRoomByPlayerID` | internal/game/game_manager/two_players_room.go:181-193 | through the player key |
| `GameManager.RoomManager.RemoveRoomByRoomID` | internal/game/game_manager/two_players_room.go:195-211 | the room and its members' keys gone, nothing when the room does not exist |
| `GameManager.RoomManager.RemoveRoomsByPlayerID` | internal/game/game_manager/two_players_room.go:213-219 | the room of the player removed |
| `GameManager.Handler.SelectGame` | internal/bot/10_game.go:194-216 | the handler is the step of the runs above |
| `GameManager.Handler.HandleGameJoin` | internal/bot/10_game.go:409-426 | the handler is the step of the runs above |
| `GameManager.Handler.ChatGameAccept` | internal/bot/10_game.go:702-743 | the handler is the step of the runs above |
| `GameManager.Handler.ConfirmFinish` | internal/bot/10_game.go:258-279 | the handler is the step of the runs above |
| `GameManager.Handler.PlayBoard` | internal/bot/10_game.go:466-469 | the press runs on a board array loaded from the stored room, and its turn, board and ending are those of the game's press |
| `GameManager.Handler.PressCell` | internal/bot/10_game.go:458-540 | the three press handlers are the press step of the runs of games in rooms |
| `GameManager.Handler.PlayDuel` | internal/bot/10_game.go:906-1342 | each word action runs on a word game object loaded from the stored duel, and what is stored back is the duel's step |
| `GameManager.Handler.PlayWord` | internal/bot/10_game.go:906-1342 | the word handlers, with the room saved, closed or marked as over, are the guess step of those runs |
| `GameRooms.DuelHasSlots` | internal/bot/10_game.go:1402-1409 | in every room in order a letter finds a slot for every letter of the secret |
| `GameManager.Handler.EndDareAndTruth` | internal/bot/10_game.go:566-623 | the handler is the step of the runs above |
| `GameManager.Handler.RepeatGame` | internal/bot/10_game.go:281-303 | the handler is the step of the runs above |
| `GameManager.Handler.AcceptGame` | internal/bot/10_game.go:370-389 | the handler is the step of the runs above |
| `GameManager.Handler.RejectGame` | internal/bot/10_game.go:391-399 | the handler is the step of the runs above |
| `GameManager.Handler.EndChat` | internal/bot/08_chat.go:250-281 | the handler's part on chats and rooms is the step of the runs above |
| `GameRooms.RunKeepsGames` | internal/bot/10_game.go:126-743 | over every run of seatings, moves, requests, restarts and chats, and of what the creator of a word game does before a second player sits down, every room holds a state of its own game's invariant for the players now in its seats: a board without a line and with balanced marks, a truthful duel, and a player to move as long as the game is not over |
| `GameRooms.StepKeepsGames` | internal/bot/10_game.go:126-743 | each handler keeps that, for all rooms, waiting ones included |
| `GameRooms.PressKeepsGame` | internal/bot/10_game.go:458-540 | a press that ends the game leaves an empty board and nobody to move behind the end mark; after any other press board and turn are again in the invariant of a running game |
| `GameRooms.GuessKeepsGame` | internal/bot/10_game.go:972-1033 | after a word game action, also of a lone creator, the duel is again in its invariant, with the end mark set exactly when it was won |
| `GameRooms.AcceptGames` | internal/bot/10_game.go:168-192 | an accepted request leaves every room's game in order |
| `GameRooms.RepeatGames` | internal/bot/10_game.go:298-346 | a restart leaves both players in a room with the same game in its initial state, the presser to move and the end mark as it was |
| `GameRooms.PressIs` | internal/game/dooz4/dooz4_gravity.go:77-181 | a press is refused, the room unchanged, exactly on the other's turn or without an empty cell to take; otherwise the seat's own mark goes to the pressed or last empty cell, and four in a row (three in the classic game) or a full board end the game, else the turn passes |
| `GameRooms.GuessIs` | internal/bot/10_game.go:906-1342 | a word action is the duel's step on the stored state, and a win ends the room's game |
| `GameRooms.SmallMoveIs` | internal/bot/10_game.go:786-864 | a move of a small game is stored as it is |
| `GameRooms.BoardCanGoOn` | internal/bot/10_game.go:458-540 | in every reachable room whose board game is not over, the player to move has a press that changes something |
| `GameRooms.RestartPlaysExactlyWhen` | internal/bot/10_game.go:281-348 | after the repeat button in a chat, for any of the six games, one of the two players has a move that does something exactly when the game before had not been marked as over |
| `GameRooms.DeadRestartHappens` | internal/bot/10_game.go:281-348 | a concrete run that meets the failing condition: a game ended between friends, a chat between them, the repeat button, and neither player has a move |
| `DoozBoard.Game.Load` | internal/game/dooz4/dooz4_normal.go:13-15 | a stored board becomes the board array, cell by cell |
| `DoozBoard.Game.Dump` | internal/game/dooz4/dooz4_normal.go:13-15 | the board array becomes the stored board, cell by cell |
| `JoinLink.RoundTripExactlyWhen` | internal/bot/10_game.go:413-417 | parsing the printed payload gives the creator back for every 64-bit id, and the type exactly when the type holds no underscore |
| `JoinLink.RegisteredTypesRoundTrip` | internal/bot/10_game.go:222-225 | every registered game type survives the round trip |
| `JoinLink.LinkText` | internal/bot/10_game.go:222-225 | the text of the link for each of the six games |
| `JoinLink.LinksAreDistinct` | internal/bot/10_game.go:222-225 | links of different creators or types differ |
| `JoinLink.LinkMatchesRoomExactlyWhen` | internal/bot/10_game.go:421-449 | a followed link seats the friend in the creator's waiting room, and the type read from the link, which the handler takes for the room's, is right exactly when the creator has not chosen another game since |
| `Decimal.ParseFormat` | internal/bot/10_game.go:417 | printing and parsing give every 64-bit number back, and the nearest end of the range with a failure for any other |
| `Decimal.DigitsAreDecimal` | internal/bot/10_game.go:222-225 | the last digit is written last, and there are no leading zeros |
| `Decimal.ParsePadded` | internal/bot/11_admin.go:404 | a plus sign and leading zeros are understood |
| `Decimal.ParseMalformed` | internal/bot/10_game.go:417 | any other text gives zero and a failure |
| `QueueIndex.RunKeepsIndexes` | internal/matching/queue_manager.go:61-260 | over every run in which nobody joins while queued: gender, province and filter indexes hold exactly the matching entries once each, and the size never passes the limit |
| `QueueIndex.EnqueueKeepsExactlyWhen` | internal/matching/queue_manager.go:75-96 | with room left, enqueuing keeps the indexes exact if and only if the user was not queued |
| `QueueIndex.EnqueueStores` | internal/matching/queue_manager.go:62-96 | with room left the entry as given is stored under its user and put at the end of its list in each index; a full queue takes nothing |
| `QueueIndex.WantsExactlyWhen` | internal/matching/queue_manager.go:150-178 | who is offered to which search |
| `QueueIndex.StepIs` | internal/matching/queue_manager.go:62-260 | joining, leaving and cleaning change exactly the users they should |
| `QueueIndex.DroppingKeepsOrder` | internal/matching/queue_manager.go:271-279 | filtering a list piece by piece keeps its order |
| `QueueIndex.OfferingKeepsOrder` | internal/matching/queue_manager.go:162-166 | so does collecting the candidates of a list |
| `QueueIndex.DequeueIsRemoval` | internal/matching/queue_manager.go:108-140 | touching one list an index equals filtering the user out of every list |
| `QueueIndex.RemoveAllIsWithout` | internal/matching/queue_manager.go:234-253 | removing entries one after the other equals filtering all their users at once |
| `QueueIndex.ListIsScan` | internal/matching/queue_manager.go:161-178 | an index list answers exactly what a scan of all entries for that key would |
| `QueueIndex.StatsAddUp` | internal/matching/queue_manager.go:192-205 | the counts by filter add up to the number of users, in whatever order the filters are visited |
| `QueueIndex.CandidatesHaveRequestedGenderExactlyWhen` | internal/matching/queue_manager.go:158-167 | the look-up uses the opposite of the searcher's own gender: candidates are of the requested gender exactly when a man asks for women or anyone else asks for men |
| `QueueManagers.QueueManager.Enqueue` | internal/matching/queue_manager.go:62-105 | refused exactly when full; otherwise entry and indexes updated with the new times |
| `QueueManagers.QueueManager.Dequeue` | internal/matching/queue_manager.go:108-140 | succeeds exactly when the user is queued |
| `QueueManagers.QueueManager.RemoveEntry` | internal/matching/queue_manager.go:271-279 | the loop drops exactly the user's entries and keeps the order |
| `QueueManagers.QueueManager.GetCandidatesByFilter` | internal/matching/queue_manager.go:143-182 | whatever the indexes hold, the candidates are the unexpired entries of the one list the filter names, in its order, without the searcher; with exact indexes they are those a scan of all entries finds, each once |
| `QueueManagers.QueueManager.GetQueueStats` | internal/matching/queue_manager.go:192-205 | the total and the length of every filter list |
| `QueueManagers.QueueManager.CleanupExpired` | internal/matching/queue_manager.go:219-260 | every expired entry is removed from the map and its own lists; with exact indexes exactly the expired users leave the map and every list, and the indexes stay exact |
| `UserCache.CacheIsInvisible` | internal/user/cached_repository.go:32-110 | over a run whose updates leave no stale key, with evictions anywhere, every read and every success answer is what the repository alone would give |
| `UserCache.PairedRunsAgree` | internal/user/cached_repository.go:32-110 | that holds of every run from an empty cache in which ids and Telegram ids stay paired |
| `UserCache.UpdateKeepsExactlyWhen` | internal/user/cached_repository.go:87-98 | an update keeps the cache right exactly when it does not move a Telegram id that is still cached |
| `UserCache.StaleKeyIsSeen` | internal/user/cached_repository.go:33-57 | otherwise the next look-up of the old Telegram id returns a user the repository no longer finds |
| `UserCache.SaveStores` | internal/user/repository.go:42-44 | saving succeeds exactly when no other row has the Telegram id, and then stores the user as given and nothing else |
| `UserCache.InsertStores` | internal/user/repository.go:24-31 | creating succeeds exactly with a new id and a free Telegram id, and stores the user under that id |
| `UserCache.FindsExactlyTheRow` | internal/user/repository.go:33-53 | a look-up by either key finds exactly the row that has it |
| `UserCache.UpdateIsRead` | internal/user/cached_repository.go:87-98 | what was just updated is what is read next, by either key |
| `UserCache.CacheKeys` | internal/user/cached_repository.go:33-119 | which cache keys each call fills and drops, and no others |
| `UserCache.RepliesInOrder` | internal/user/cached_repository.go:33-119 | every call of a run is answered, in order, from the state before it |
| `UserCache.CreateKeeps` | internal/user/cached_repository.go:101-110 | caching a created user keeps the cache right |
| `UserCache.StepAgrees` | internal/user/cached_repository.go:32-119 | each call answers as the repository does and leaves the same table |
| `CachedRepositories.CachedRepository.GetByTelegramID` | internal/user/cached_repository.go:33-57 | cache first, then database and fill |
| `CachedRepositories.CachedRepository.GetByID` | internal/user/cached_repository.go:60-84 | cache first, then database and fill |
| `CachedRepositories.CachedRepository.Update` | internal/user/cached_repository.go:87-98 | write, then drop the keys of the new record, only on success |
| `CachedRepositories.CachedRepository.Create` | internal/user/cached_repository.go:101-110 | write, then cache under the generated id |
| `CachedRepositories.CachedRepository.InvalidateUserCache` | internal/user/cached_repository.go:113-119 | drops the two given keys |
| `CachedRepositories.Repository.Create` | internal/user/repository.go:24-31 | fails without effect on a failed id, a used id or a used Telegram id, and keeps the unique index |
| `CachedRepositories.Repository.Update` | internal/user/repository.go:42-44 | fails without effect on another row's Telegram id, and otherwise stores the record, keeping the unique index |
| `LastSeenWriter.BuildCase` | internal/user/repository.go:403-424 | the built statement has exactly as many place holders as arguments, and run on any table it overwrites exactly the listed rows, each with its own time |
| `LastSeen.OverwriteWrites` | internal/user/repository.go:341-401 | the pointwise update: listed rows get their time, others stay, none is added |
| `LastSeen.CaseOverwrites` | internal/user/repository.go:403-424 | for any order of the ids, CASE pairs and IN list together mean the pointwise update |
| `LastSeen.SqlMarks` | internal/user/repository.go:409-417 | three place holders an id |
| `LastSeen.CutIsChunked` | internal/user/repository.go:376-390 | cutting along any enumeration gives chunks of 1 to 500, all but the last of exactly 500, that share no key and are the data together |
| `LastSeen.ChunksOverwrite` | internal/user/repository.go:392-397 | writing chunk by chunk equals one pointwise update |
| `LastSeen.JoinOverwrites` | internal/user/repository.go:355-371 | the two parallel arrays joined by id mean the pointwise update |
| `LastSeenWriter.Split` | internal/user/repository.go:376-390 | the counting loop produces such chunks |
| `LastSeenWriter.Repository.BulkUpdateLastSeen` | internal/user/repository.go:341-401 | on either database, chunked or not, a bulk update is one pointwise update |
| `LastSeenWriter.Repository.BulkUpdateCase` | internal/user/repository.go:403-424 | running the built statement is the pointwise update |
| `LastSeenWriter.Repository.BulkUpdateJoin` | internal/user/repository.go:349-372 | so is running the joined one |
| `LastSeen.GroupingIsPerId` | internal/session/manager.go:325-362 | grouping ids by time and writing group by group, in any order, equals writing each id on its own |
| `LastSeen.EachWrites` | internal/session/manager.go:350-354 | writing each id on its own gives each its time and leaves the others |
| `LastSeen.GroupMembers` | internal/session/manager.go:326-347 | an id is in the group of a time exactly when it was seen with that time |
| `LastSeenWriter.Repository.SyncBatch` | internal/session/manager.go:325-362 | the grouping loop and the update loop over a batch amount to one update an id |
| `Admin.ExecutesStandingPrompt` | internal/bot/11_admin.go:112-120 | an action is carried out only on a confirmation, and only if the latest thing that admin settled was the prompt for exactly this command and input; what is done is that command's own action |
| `Admin.PromptExecutesOnce` | internal/bot/11_admin.go:112-120 | a prompt is carried out at most once |
| `Admin.PromptIsValidated` | internal/bot/11_admin.go:150-187 | prompts exist only for known commands with trimmed input that passed validation (a broadcast fits its limit, a ban names a user that can be found), and one given as a text answers the same admin's latest command |
| `Admin.ExecutedAmounts` | internal/bot/11_admin.go:193-198 | executed coin amounts are what the payload parses to, successfully, and lie between 1 and 1,000,000: the ignored parse error never occurs |
| `Admin.AnswersExactlyWhen` | internal/bot/11_admin.go:106-187 | for an admin: what every command, text, confirmation and cancellation is answered and what is remembered afterwards |
| `Admin.OnlyAdminsAreAnswered` | internal/bot/11_admin.go:39-51 | nobody else is answered or remembered |
| `Admin.ValidPayloadExactlyWhen` | internal/bot/11_admin.go:349-370 | a broadcast of 1 to 4000 characters, an amount from 1 to 1,000,000, a user that can be found, with or without the reference prefix |
| `Admin.AmountAcceptedExactlyWhen` | internal/bot/11_admin.go:399-409 | a written 64-bit amount is accepted exactly from 1 to 1,000,000 and read as written |
| `Admin.RecordStands` | internal/bot/11_admin.go:300-321 | what is remembered for an admin is always the latest thing that admin settled |
| `Admin.OldPromptSurvivesExactlyWhen` | internal/bot/11_admin.go:150-165 | a new command given while a prompt stands leaves the older action to the next confirmation exactly when its name is unknown, its input is present but invalid, or it repeats the same command and input |
| `Admin.BadAmountLeavesBroadcast` | internal/bot/11_admin.go:159-161 | a concrete case: after a coin command with the input abc, confirming sends the broadcast before it |
| `Admin.OthersDoNotMatter` | internal/bot/11_admin.go:300-321 | nobody else changes what is remembered for an admin |
| `Admin.Handler.BeginAction` | internal/bot/11_admin.go:150-165 | the command handlers' step and answer |
| `Admin.Handler.HandleText` | internal/bot/11_admin.go:167-187 | the text handler's step and answer |
| `Admin.Handler.ConfirmAction` | internal/bot/11_admin.go:112-120 | the confirmation clears the record and carries it out |
| `Admin.Handler.CancelAction` | internal/bot/11_admin.go:106-110 | the record is forgotten |
| `Text.TrimCutsSpace` | internal/bot/11_admin.go:154 | trimming takes away white space at both ends and nothing else |
| `Text.TrimTwice` | internal/bot/11_admin.go:154 | trimmed text has no white space at its ends and trimming again changes nothing |
| `RateLimit.WindowBound` | pkg/middleware/RateLimit.go:27-40 | a closed window of width w holds at most w / L + 1 accepted requests of one user |
| `RateLimit.WindowBoundIsReached` | pkg/middleware/RateLimit.go:27-40 | and for every width some run reaches that bound |
| `RateLimit.RefusedExactlyWhen` | pkg/middleware/RateLimit.go:31-36 | a request is refused exactly when an earlier one of the same user was let through less than the limit before |
| `RateLimit.SenderlessPass` | pkg/middleware/RateLimit.go:22-25 | requests without a sender always pass and are not remembered |
| `RateLimit.AcceptedApart` | pkg/middleware/RateLimit.go:31-40 | accepted requests of one user are at least the limit apart |
| `RateLimit.EntryIsLastAccepted` | pkg/middleware/RateLimit.go:38-40 | the remembered time is that of the user's last accepted request |
| `RateLimit.OthersDoNotMatter` | pkg/middleware/RateLimit.go:27-40 | whether a request passes depends on its own user's requests alone |
| `RateLimit.Limiter.Handle` | pkg/middleware/RateLimit.go:22-42 | the middleware is the step of the runs above; requests without a sender always pass |

## Left out

- Messages, keyboards, message ids and logging: user interface, no state to prove anything about.
- Redis and gorm as such: keys, JSON, pipelines and expiry. Stores are maps, a missing list is an empty one, and time-outs of keys outlive the two-minute search, except in the user cache, where entries may vanish at any moment.
- Store failures other than the refused chat of `FailMatchOverpays`: the queue code does not undo its earlier writes there.
- Concurrent handlers: each handler and each tick is one step; reading a balance and writing it back is not interleaved.
- The handler that accepts a chat request, and the older functions that start and end a chat: they bypass the guards of queue and chat.
- Legacy active-chat values that hold only the partner's id (internal/session/chat.go:98-103), the legacy waiting phase and the legacy single-target fields and try limit of the word game.
- Latitude, longitude and message id of queue entries; city, age and coordinates of entries in the indexed queue: carried along, never looked at.
- Normalising letters and digits in word-game input (internal/bot/10_game.go:1456-1470): the steps start from the normalised text.
- Rock-paper-scissors and truth-or-dare moves: finite tables; their rooms are covered by the move and ending steps, with the game's state as one opaque number.
- Presses and word actions in a room of another game, presses off the board, and board presses before a second player sits down: the source fails on them, which is modelled as no change.
- The message id and last-move time of a room, and rooms whose game could not be decoded.
- Profile search with its distance formula and query builder, and the connection pool: floating point and database planning.
- Failing database updates in the last-seen sync, which are logged and skipped, and deleting the synced keys after a batch.
- QueueManagers.QueueManager.GetCandidatesByFilter: reads the clock once a call, where the source reads it once a candidate; after a user was enqueued twice, what it returns is what the list holds, older entries included.
- QueueManagers.QueueManager.CleanupExpired: after a user was enqueued twice, the older entry in another list stays, as in the source.
- QueueManagers.QueueManager.Enqueue: reads the clock once, where the source reads it twice, and stores the entry as a value, so a caller who keeps changing the same entry is not modelled.
- CachedRepositories.Repository.Update: takes saving to be an insert-or-replace by id that fails only on another row's Telegram id; database defaults and time stamps are not modelled.
- LastSeenWriter.Repository.SyncBatch: promises the update an id for batches that show one time an id, which is what one key an id gives.
- LastSeenWriter.BuildCase: gives the statement the meaning of its CASE and IN parts by argument position; the SQL text itself is only counted, not parsed.
- RateLimit.Limiter.Handle: the limit is fixed during a run, and requests are handled one at a time.
- GameManager.Handler.PlayWord: asks for rooms in order, as every run leaves them; the source would index past a display shorter than the secret.
- GameManager.Handler.ChatGameAccept: without a chat the source fails on a missing record, which is modelled as no change.
