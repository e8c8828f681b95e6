# Superfarmer server core in Dafny

A model of the game server of Superfarmer, a multiplayer browser version of the Polish board game.
Players breed rabbits, sheep, pigs, cows and horses. They roll two twelve-face dice, trade with
the bank at fixed rates, and trade with each other. A fox or a wolf on the dice takes animals, unless
a small or big dog chases it off. The first player to hold at least one of each of the five farm
animals wins.

The model covers three parts of the server:

- **Game rules** (`gameLogic.js`): the fixed tables, the start of a game, a dice roll, a bank
  exchange, peer transfers, the win test and the turn order.
- **Room registry** (`roomManager.js`): rooms stored by id, each with an ordered list of players.
- **Socket handlers** (`server.js`): how the handlers change the registry and the map from socket
  ids to players.

Modules, in dependency order:

- `Wrappers`: `Option`, `Result`, `Outcome`.
- `Rules`: the animal kinds, the bank's starting herd, the two dice and the bank-exchange table.
- `Dice`: the outcome of one roll on the roller's herd and the bank, as functions on values.
- `Bank`: the checks and the effect of an exchange with the bank, as functions on values.
- `Trading`: `playerHasAnimals` and `transferAnimals`.
- `Model`: players, trades, the game state, and the `Room` class with its invariant.
- `Turns`: whose turn is next, and the win test.
- `GameLogic`: the handlers of `gameLogic.js` that change a `Room` in place. Each is proved against
  the functions of `Dice`, `Bank` and `Turns`.
- `RoomManager`: the effect of each registry operation on a player list, as a function, and the
  `Registry` class whose methods apply it.
- `Server`: the `Server` class with its socket map and one method per socket handler. Each handler
  is proved against a function on the room's state (`Readied`, `Rolled`, `Proposal`, `Answered`,
  `Disconnected`).

Every operation that changes something keeps two things:

- **The room invariant** (`Model.ValidRoom`):
  - at most four players, with distinct ids;
  - no negative animal count;
  - pending trades filed under their own id, between two different players, with positive
    quantities;
  - once a game has started, a turn-state entry for every player.
- **The room total of every kind.** This is what the players hold together plus what the bank
  holds. Rolls, bank exchanges, peer trades and hand-overs never change it. It changes when a
  player leaves with their animals, and when a game starts: `initializeGame` fills the bank
  afresh and sets every player's rabbit count to one (see the restart case below).

## Model

| member | source | states |
|---|---|---|
| `Rules.FindIn` | gameLogic.js:263 | `find` on a rule list: it returns the first rule for the pair, and returns nothing exactly when no rule names the pair |
| `Rules.FindRule` | gameLogic.js:49-62 | the exchange table as a lookup by pair; every rule it gives names that pair and is well formed |
| `Rules.TableIsRules` | gameLogic.js:49-62 | the lookup gives only rules of `tradeRules`, and gives none only for a pair no rule names |
| `Rules.FindIsTable` | gameLogic.js:263 | `tradeRules.find` on a pair equals the table lookup |
| `Rules.RulesWellFormed` | gameLogic.js:49-62 | every rule trades a positive number of one held kind for a positive number of another held kind |
| `Rules.RulesUnique` | gameLogic.js:49-62 | no two rules share an ordered pair, so `find` is never ambiguous |
| `Rules.RulesAreInverse` | gameLogic.js:49-62 | every rule's pair finds that rule, and the reversed pair finds its exact inverse |
| `Rules.DiceFaces` | gameLogic.js:21-48 | die 1 shows only rabbit, sheep, pig, cow or wolf; die 2 shows only sheep, pig, horse or fox |
| `Dice.Occurrences` | gameLogic.js:199 | the number of faces showing a kind is at most the number of dice |
| `Dice.Gain` | gameLogic.js:198-208 | breeding gains `min((held + faces) / 2, bank)`, never a negative amount, and nothing without a pair |
| `Dice.BreedConserves` | gameLogic.js:205-206 | breeding only moves animals from the bank to the player |
| `Dice.LoseAllConserves` | gameLogic.js:146-152 | the wolf only moves animals from the player to the bank |
| `Dice.RollConserves` | gameLogic.js:94-232 | a whole roll keeps each kind's player-plus-bank total |
| `Dice.BreedKeepsSound` | gameLogic.js:203-206 | breeding never makes a count negative, because the gain is capped by the bank |
| `Dice.LoseAllKeepsSound` | gameLogic.js:146-152 | the wolf's losses never make a count negative |
| `Dice.PredatorsKeepSound` | gameLogic.js:108-167 | the fox and wolf steps never make a count negative |
| `Dice.RollKeepsSound` | gameLogic.js:94-232 | a whole roll never makes a count of the player or of the bank negative |
| `Dice.LoseAllOthers` | gameLogic.js:146-152 | the wolf leaves alone the kinds it does not visit |
| `Dice.LoseAllPrey` | gameLogic.js:146-152 | each prey kind the wolf visits drops to 0, and the bank takes all of it |
| `Dice.FoxStepFacts` | gameLogic.js:108-134 | the fox step only moves animals to the bank, and only rabbits or one small dog |
| `Dice.WolfStepFacts` | gameLogic.js:136-167 | the wolf step only moves animals to the bank, and only prey or one big dog |
| `Dice.WolfFeast` | gameLogic.js:144-166 | an undefended wolf moves only sheep, pigs and cows, and keeps totals |
| `Dice.PredatorsOthers` | gameLogic.js:108-167 | a kind no rolled predator threatens is untouched by the predator steps |
| `Dice.GuardIsOriginal` | gameLogic.js:136-140 | the big-dog test sees the counts after the fox step, and those are the original big-dog counts |
| `Dice.BreedSkips` | gameLogic.js:172-183 | a kind that no face shows, or that a loose predator forbids, does not breed |
| `Dice.BreedStepGains` | gameLogic.js:185-213 | one breeding visit pays exactly `Gain` to the player, taken from the bank |
| `Dice.BreedStepOthers` | gameLogic.js:172-215 | one breeding visit touches only its own kind |
| `Dice.RollFoxHeldOff` | gameLogic.js:109-115 | with a small dog, a rolled fox costs exactly that dog, which returns to the bank |
| `Dice.RollFoxAttack` | gameLogic.js:116-133 | without a small dog, the fox leaves at most one rabbit, the rest go to the bank, and rabbits do not breed |
| `Dice.RollWolfHeldOff` | gameLogic.js:137-143 | with a big dog, a rolled wolf costs exactly that dog, which returns to the bank |
| `Dice.RollWolfAttack` | gameLogic.js:144-166 | without a big dog, the wolf takes every sheep, pig and cow to the bank, and those kinds do not breed |
| `Dice.RollLeavesOthers` | gameLogic.js:94-232 | a kind that no die shows and no rolled predator threatens keeps both counts |
| `Dice.PredatorsSpare` | gameLogic.js:108-167 | the predators spare any kind they do not take on this roll |
| `Dice.RollBreedsOnce` | gameLogic.js:185-213 | a kind on one die breeds from the pre-roll counts: the player gains `min((held + 1) / 2, bank)` and the bank loses the same |
| `Dice.RollBreedsTwice` | gameLogic.js:169-213 | a double shows only sheep or pig; it is visited twice, and the second visit sees the first visit's gain |
| `Dice.PredatorsNeverAdd` | gameLogic.js:108-167 | the predator steps never add to a player's count |
| `Dice.RollFirstOnlyFromDouble` | gameLogic.js:186-213 | a player's first animal of a kind can come from a roll only when both dice show that kind |
| `Dice.NoPairFromNothing` | gameLogic.js:198-202 | with none held and at most one matching face, a breeding visit gives nothing |
| `Dice.RollNoFirstCowOrHorse` | gameLogic.js:186-196 | the dice never give a first cow or a first horse |
| `Bank.ExchangeCheck` | gameLogic.js:260-285 | an exchange passes its checks only with a parsed amount and the pair's rule |
| `Bank.SwapCounts` | gameLogic.js:287-290 | the four updates move `n` of `from` to the bank and `total` of `to` to the player |
| `Bank.SwapOthers` | gameLogic.js:287-290 | the four updates touch only the two kinds named |
| `Bank.CheckUnitsIff` | gameLogic.js:266-285 | once the rule is known, the checks pass iff the amount is a multiple of the unit, the player has that amount and the bank can pay; each error returned is the first check that fails |
| `Bank.ExchangeSucceedsIff` | gameLogic.js:260-285 | an exchange succeeds iff the amount is positive, the pair has a rule, the amount is a whole number of units, the player holds it and the bank can pay |
| `Bank.ExchangeErrors` | gameLogic.js:261-285 | each error returned corresponds exactly to the first failing check: invalid amount, no rule, not a multiple, player lacks |
| `Bank.ExchangeMoves` | gameLogic.js:272-290 | a successful exchange moves `amount` of `from` to the bank and `units * toCount` of `to` to the player |
| `Bank.ExchangeLeavesOthers` | gameLogic.js:287-290 | an exchange touches only the two kinds named |
| `Bank.ExchangeConserves` | gameLogic.js:287-290 | an exchange keeps each kind's player-plus-bank total |
| `Bank.ExchangeKeepsSound` | gameLogic.js:274-290 | no count goes negative, because the checks come before the move |
| `Bank.RuleKeepsWorth` | gameLogic.js:49-62 | every rule trades at equal worth in rabbits |
| `Bank.ValueSet` | gameLogic.js:287-290 | setting one kind's count changes a herd's worth by the worth of the difference |
| `Bank.SwapKeepsValue` | gameLogic.js:287-290 | a swap of equal worth changes neither the player's worth nor the bank's |
| `Bank.ExchangeKeepsValue` | gameLogic.js:257-296 | no exchange changes what the player's herd, or the bank's, is worth in rabbits |
| `Bank.ExchangeRoundTrip` | gameLogic.js:257-296 | the reverse exchange of what was received succeeds and restores both herds |
| `Trading.PlayerHasAnimals` | gameLogic.js:238-246 | absent items never pass; the empty item list always passes; a kind asked for in a positive quantity is held |
| `Trading.TransferAnimals` | gameLogic.js:248-255 | with no items nothing changes; otherwise every named kind is debited from the giver and credited to the receiver |
| `Trading.DebitedCount` | gameLogic.js:252 | a debited count is the old count minus the item's quantity |
| `Trading.CreditedCount` | gameLogic.js:253 | a credited count is the old count plus the item's quantity |
| `Trading.TransferConserves` | gameLogic.js:248-255 | a transfer keeps the two players' total of every kind |
| `Trading.HasIffDebitSound` | gameLogic.js:238-246 | a player holds the items exactly when debiting them leaves no named kind negative |
| `Trading.HasKeepsNonNegative` | gameLogic.js:238-255 | debiting items the player holds keeps every count non-negative |
| `Trading.CreditKeepsNonNegative` | gameLogic.js:253 | crediting positive items keeps every count non-negative |
| `Trading.TransferRoundTrip` | gameLogic.js:248-255 | transferring the same items back restores both players' counts |
| `Model.FindIndex` | roomManager.js:77 | `findIndex`: the first seat with the id, or -1 exactly when no seat has it |
| `Model.FindIndexUnique` | roomManager.js:77 | with distinct ids, the index found is the only seat holding the id |
| `Model.Room.constructor` | roomManager.js:15-23 | a new room has no players, has not started and has no game state, with a capacity of four |
| `Turns.ActiveMembers` | gameLogic.js:310 | the connected players are exactly the players of the list that have a socket |
| `Turns.ActiveConcat` | gameLogic.js:310 | `filter` keeps the list's order: the connected players of `a + b` are those of `a` followed by those of `b` |
| `Turns.ActiveSingle` | gameLogic.js:310 | a single player is kept exactly when it has a socket |
| `Turns.ActiveFirst` | gameLogic.js:310-314 | the first connected player is the earliest player in the list that has a socket |
| `Turns.NextIndex` | gameLogic.js:316 | the next position is in range, and is the current one when skipping |
| `Turns.NextNoneIff` | gameLogic.js:310-311 | nobody is named exactly when nobody is connected |
| `Turns.NextIsConnected` | gameLogic.js:309-317 | the player named is a connected member of the room |
| `Turns.NextWhenAbsent` | gameLogic.js:313-314 | if the current player is not connected, the turn goes to the first connected player without a flag reset |
| `Turns.NextSkipStays` | gameLogic.js:316 | skipping keeps the turn with a connected current player |
| `Turns.ActiveUnique` | gameLogic.js:310 | the connected players keep distinct ids |
| `Turns.NextFromPosition` | gameLogic.js:313-317 | from the connected player at position `j`, the turn moves to position `(j + 1) mod n` |
| `Turns.ConnectedPosition` | gameLogic.js:310-313 | every connected member has a position among the connected players |
| `Turns.NextRotates` | gameLogic.js:316 | with two or more connected players, the turn always passes to somebody else |
| `Turns.PassedFromPosition` | gameLogic.js:316 | after `m` hand-overs from position `j`, the turn is at position `j + m` wrapped |
| `Turns.TurnReaches` | gameLogic.js:309-327 | every connected player gets the turn within one round |
| `Turns.TurnsCycle` | gameLogic.js:309-327 | after one hand-over per connected player, the turn is back where it started |
| `Turns.WinIffFarmComplete` | gameLogic.js:298-307 | `checkWinCondition` holds exactly when the herd has at least one of every animal the bank stocks except the two dogs |
| `Turns.WinningHerdWorth` | gameLogic.js:298-307 | a winning herd is worth at least 127 rabbits at the bank's rates |
| `Turns.RollCannotWinWithoutCowAndHorse` | gameLogic.js:186-196 | a roll never makes a winner of a player who lacks a cow or a horse |
| `GameLogic.SeatedAll` | gameLogic.js:79-84 | the start gives every player exactly one rabbit and changes nothing else |
| `GameLogic.InitializeGame` | gameLogic.js:64-88 | fewer than two players is refused and nothing changes; otherwise the game starts with a full bank less one rabbit per player, the first player's turn, fresh flags, no trades, one rabbit each |
| `GameLogic.StartKeepsValid` | gameLogic.js:67-84 | the started room keeps the room invariant |
| `GameLogic.StartWinners` | gameLogic.js:79-84 | right after the start a player wins exactly when they already held a sheep, a pig, a cow and a horse; players who joined with no animals never win at the start |
| `GameLogic.StartConserves` | gameLogic.js:79-84 | for players with no animals, the rabbits handed out are the ones the bank gives up |
| `GameLogic.DetermineNextPlayer` | gameLogic.js:309-327 | names the player `Turns.NextPlayer` names, resets that player's flags exactly when the current player was found, and keeps the invariant |
| `GameLogic.FoxPhase` | gameLogic.js:108-134 | the imperative fox step equals `Dice.FoxStep`, and flags the dog used exactly when a small dog chased the fox |
| `GameLogic.WolfPhase` | gameLogic.js:136-167 | the imperative wolf step, including its loop over the prey, equals `Dice.WolfStep`, and flags the dog used exactly when a big dog chased the wolf |
| `GameLogic.BreedPhase` | gameLogic.js:169-215 | the loop over the two faces equals `Dice.Breed` |
| `GameLogic.BreedFace` | gameLogic.js:172-215 | the imperative breeding of one face equals `Dice.BreedStep` |
| `GameLogic.RollHerds` | gameLogic.js:105-215 | the three imperative steps together equal `Dice.Roll` |
| `GameLogic.GuardFromFlags` | gameLogic.js:175-183 | the `smallDogUsed` and `bigDogUsed` flags forbid breeding exactly as `Dice.GuardOf` does |
| `GameLogic.HandleRollDice` | gameLogic.js:94-232 | an unknown player is refused and the room is unchanged; otherwise the roller's herd and the bank become `Dice.Roll`, the faces are recorded, `hasRolled` is set, every total is kept and the invariant holds |
| `GameLogic.RollKeepsValidRoom` | gameLogic.js:94-232 | a roll keeps the room invariant and every kind's room total |
| `GameLogic.HandChangeKeepsRoom` | gameLogic.js:94-232 | a conserving, sound change of one player and the bank keeps distinct ids, non-negative counts and room totals |
| `GameLogic.ExchangeHerds` | gameLogic.js:260-290 | the imperative checks and the four updates equal `Bank.Exchange` |
| `GameLogic.HandleExchangeWithBank` | gameLogic.js:257-296 | an unknown player, or a failed check with its reason, changes nothing; otherwise the herd and the bank become `Bank.Exchange` and `hasExchanged` is set; totals and the invariant are kept |
| `GameLogic.ExchangeKeepsValidRoom` | gameLogic.js:257-296 | an exchange that passes its checks keeps the room invariant and every room total |
| `RoomManager.Substring` | roomManager.js:17 | JavaScript `substring` with both ends clamped: no longer than the range, and the exact slice when the range fits |
| `RoomManager.JoinedSpec` | roomManager.js:30-51 | `joinRoomAPI` refuses exactly a newcomer to a started or full room, reporting the started game first; a member gets only the new nick; a newcomer is appended with no animals, no socket and not ready |
| `RoomManager.JoinedIdempotent` | roomManager.js:36-48 | joining a second time with the same nick changes nothing more |
| `RoomManager.JoinThenRemove` | roomManager.js:36-79 | a newcomer who joins and is then spliced out leaves the list as it was |
| `RoomManager.BoundSpec` | roomManager.js:53-72 | `addPlayerToSocketRoom` refuses exactly a newcomer to a full room or a started game, reporting the full room first; a member only gets the socket and keeps nick, animals and readiness; a newcomer is appended with the socket, no animals and not ready; nobody else changes |
| `RoomManager.WithoutSpec` | roomManager.js:77-79 | `splice` removes exactly the player at the index and keeps the others in order |
| `RoomManager.WithoutCount` | roomManager.js:79 | a player who leaves takes their animals out of the players' total |
| `RoomManager.ToggleTwice` | roomManager.js:105 | toggling readiness flips the flag, and toggling twice restores the list |
| `RoomManager.JoinedKeepsValid` | roomManager.js:30-51 | a join keeps the room invariant |
| `RoomManager.BoundKeepsValid` | roomManager.js:53-72 | binding a socket keeps the room invariant |
| `RoomManager.WithoutKeepsValid` | roomManager.js:74-90 | removing a player keeps the room invariant |
| `RoomManager.ToggledKeepsValid` | roomManager.js:100-108 | toggling readiness keeps the room invariant |
| `RoomManager.Registry.constructor` | roomManager.js:2 | the registry starts empty |
| `RoomManager.Registry.GetRoom` | roomManager.js:92 | `getRoom` returns the room stored under the id, or nothing when there is none |
| `RoomManager.Registry.IsPlayerInRoom` | roomManager.js:94-97 | `isPlayerInRoom` holds exactly when `getRoom` finds the room and `findIndex` finds the player in it |
| `RoomManager.Registry.CreateRoom` | roomManager.js:10-28 | a name already in use is refused and the registry unchanged; otherwise a fresh empty room, named `name` or by default after its id, with the creator as host, is stored under its id |
| `RoomManager.Registry.JoinRoomAPI` | roomManager.js:30-51 | a missing room is refused; otherwise the players become `Joined`, and a refusal changes nothing |
| `RoomManager.Registry.AddPlayerToSocketRoom` | roomManager.js:53-72 | a missing room is refused; otherwise the players become `Bound`, and a refusal changes nothing |
| `RoomManager.Registry.RemovePlayerFromSocketRoom` | roomManager.js:74-90 | without the room or the player nothing changes; otherwise the removed player is returned, the player is spliced out, and a room left empty is deleted |
| `RoomManager.Registry.SetPlayerReady` | roomManager.js:100-108 | a missing or started room, or an absent player, is refused and nothing changes; otherwise exactly that player's readiness flips |
| `Server.ReadyCountAll` | server.js:135-138 | the ready count is at most the player count, and reaches it exactly when every player is ready |
| `Server.ReadiedFlags` | server.js:132 | the `playerReady` handler flips only the sender's flag and keeps every seat's id |
| `Server.ReadiedStarts` | server.js:135-141 | the game starts exactly when it had not started, there are at least two players and, after the flip, all are ready; the first player then has the turn and every player one rabbit |
| `Server.HandedOnSpec` | server.js:186 | handing on the turn names a connected player, or nobody when nobody is connected, and keeps the bank, the trades and the turn-state keys |
| `Server.HandedOnKeepsValid` | server.js:186 | handing on the turn keeps the room invariant |
| `Server.ProposalSpec` | server.js:196-283 | a trade is filed iff the proposer holds the turn and has neither rolled nor exchanged this turn, both players are seated and different, the proposer holds the offer, all quantities are positive and the target is connected; the trade is then filed as proposed; a refusal adds no trade |
| `Server.ProposalKeepsValid` | server.js:244-282 | a proposal keeps the room invariant |
| `Server.AnsweredSpec` | server.js:285-415 | only the target can answer; every other answer deletes the trade; animals move exactly when the target accepts, both players are seated and both can still pay: the trade is then settled, the reply is `Done` and a proposer holding the turn has exchanged; a rejection is acknowledged with nothing moved; a seat gone refuses; the bank, the turn and the turn-state keys stay |
| `Server.SettledKeepsValid` | server.js:359-360 | settling a trade both sides can pay keeps the ids and leaves no count negative |
| `Server.SettledConserves` | server.js:359-360 | settling a trade keeps the players' total of every kind |
| `Server.SettledUndone` | server.js:359-360 | settling the reverse trade restores both players' counts and leaves everyone else alone |
| `Server.AnsweredKeepsValid` | server.js:285-415 | every answer keeps the room invariant |
| `Server.AnsweredConserves` | server.js:285-415 | no answer creates or destroys an animal |
| `Server.RolledSpec` | server.js:169-193 | a roll keeps the invariant and the totals; an unseated roller is refused; the reply is a win exactly when the new herd wins, and the turn then stays; otherwise the turn passes to a connected player or to nobody |
| `Server.CancelTradesOf` | server.js:480-507 | the loop over the pending trades deletes exactly those naming the player and keeps the others unchanged |
| `Server.DepartedSpec` | server.js:472 | after removal the player is gone with their animals; the rest of the room and the invariant hold |
| `Server.TradesKeptKeepsValid` | server.js:480-507 | dropping the trades that name a player keeps the room invariant |
| `Server.AfterLeavingSpec` | server.js:480-528 | after the clean-up no trade names the player; the players, the bank and the invariant are kept |
| `Server.DisconnectedSpec` | server.js:462-534 | after a disconnection the player is gone with their animals, no trade names them, the bank is unchanged and the invariant holds |
| `Server.DisconnectedHandsOver` | server.js:511-512 | when the turn holder leaves, the game goes on and the turn passes to the first connected player left, or to nobody; when nobody is left, the game stops |
| `Server.DisconnectedEndsShortGame` | server.js:525-528 | when anyone else leaves a started game of two, the game stops |
| `Server.DisconnectedAsWritten` | server.js:480-531 | `disconnect` as written, with `first` the earliest trade naming the player, or none when no trade names them: the players end up as after the corrected clean-up; with no such trade the two coincide; otherwise only `first` is deleted, and the game flag and the turn are left as they were |
| `Server.AsWrittenStrandsTurn` | server.js:501-506 | as written, a turn holder who leaves while a trade names them keeps the turn after leaving: the game stays started and no other player holds the turn |
| `Server.AsWrittenStrandsTurnExample` | server.js:501-531 | two players, where the turn holder offered a trade and then leaves: as written the turn stays with the departed player; corrected, it passes to the other player |
| `Server.RollInRoom` | server.js:169-193 | the roll part of `rollDice` leaves the room and the reply as `Rolled` gives them; a refusal changes nothing |
| `Server.ProposeInRoom` | server.js:205-282 | the proposal part leaves the game state and the reply as `Proposal` gives them; players are kept; a refusal other than an offline target changes nothing |
| `Server.AnswerInRoom` | server.js:302-414 | the answer part leaves the players, the game state and the reply as `Answered` gives them; totals are kept; a non-target's answer changes nothing |
| `Server.FinishDeparture` | server.js:480-528 | the clean-up of `disconnect` leaves the room as `AfterLeaving` gives it and keeps the invariant |
| `Server.StartWhenAllReady` | server.js:135-141 | the game starts, as `initializeGame` starts it, exactly when at least two players are all ready and it had not started |
| `Server.Server.constructor` | server.js:35 | the socket map starts empty |
| `Server.Server.JoinRoom` | server.js:90-124 | missing ids, a missing room, a newcomer to a full room and a newcomer to a started game are refused, in that order, and change nothing; otherwise the player holds the socket as `addPlayerToSocketRoom` binds it, the room's game flag and game state stay, and the socket maps to the player and room |
| `Server.Server.PlayerReady` | server.js:126-154 | an unknown socket is ignored; the registry's refusals are reported and change nothing; otherwise the room becomes `Readied` |
| `Server.Server.RollDice` | server.js:156-194 | an unknown socket is ignored; a roll out of turn or outside a started game is refused and changes nothing; otherwise the room and the reply are `Rolled` |
| `Server.Server.ProposeTrade` | server.js:196-283 | an unknown socket and an inactive room are refused; otherwise the game state and the reply are `Proposal`; no animal moves |
| `Server.Server.RespondToTrade` | server.js:285-415 | an unknown socket and a trade not pending are refused; otherwise the room and the reply are `Answered` and the game stays started; every room total is kept |
| `Server.Server.ExchangeWithBank` | server.js:417-460 | an unknown socket is ignored; an exchange out of turn is refused; otherwise it behaves as `handleExchangeWithBank`, with the refusal reason; the turn and every total are kept |
| `Server.Server.Disconnect` | server.js:462-534 | an unknown socket or a missing room is ignored; otherwise the room becomes `Disconnected`, it is deleted when left empty, other rooms are unchanged, and the socket's entry stays |

## Left out

- **Logging.** All of it is left out: the game log, the log messages, `console` output, and the
  text of error messages. An error is reported as a constructor of `Refusal` instead.
- **Socket emits, `socket.join` and `socket.leave`.** A handler returns a `Reply` instead.
- **Randomness, clocks and generated ids.** The dice faces, trade ids, room ids, socket ids and
  timestamps are parameters. `generateId`, `generateTradeId` and `rollSingleDie` are left out for
  that reason.
- **The HTTP routes** (`server.js:37-86`). They are request parsing around `createRoom`. The join
  route calls `joinRoom`, which `roomManager.js` does not export. For a player `playerManager`
  knows, the call throws inside the route's `try` and the answer is 400. For an unknown player,
  `getPlayer` gives `undefined` (`playerManager.js:14-16`), so reading its `nick` at
  `server.js:76` throws before the `try`, and the answer is Express's default 500.
- **`playerManager.js`.** A player's nick is a parameter. A `joinRoom` for a player that
  `playerManager` does not know throws outside the handler's `try`.
- **`getAllRooms`.** It is only a listing for the HTTP route.
- **Concurrency.** Each handler runs to completion on the state it is given.
- **The process after an uncaught throw.** `rollDice`, `proposeTradeToPlayer` and
  `respondToTradeOffer` do not catch errors. `handleRollDice` throws for an unseated roller; the
  model returns `NotSeated` and leaves the room unchanged. The call to `addLogMessageToRoom`
  (imported at `server.js:14`, but not exported by `roomManager.js:111-114`) throws only after
  these handlers have made all their changes, so the model's state is the same as if it had been a
  no-op. Whether the process survives such a throw is not modelled.
- **Parsing the amount.** `parseInt` is left out: the exchange amount is an `Option<int>`, where
  `None` stands for NaN.
- **Untyped client data.** Items are `Option` of a map from animal kind to integer. Keys that are
  not animals, non-integer quantities, and a missing `exchange` object are left out.
- **Insertion order of pending trades.** Trades are a map, so `DisconnectedAsWritten` takes the
  first trade deleted as a parameter. Its preconditions tie that parameter to the state: it is
  absent exactly when no trade names the player. Which of several such trades is the first is
  not modelled.
- **`deleteRoom`** (`server.js:523`). It is never defined. Its branch cannot be reached: it sits
  inside the `if` at `server.js:511`, whose guard demands `room.players.length > 0`, while the
  branch itself demands `room.players.length === 0`.
- **The client files.** They are context only.
- `Server.Server.Disconnect`: states the corrected behaviour (see Findings), not the behaviour of
  the code as written.

Places where the code differs from the rules of the board game, or where its behaviour may
surprise. The model follows the code in each.

- **Breeding after a defended attack.** A fox or wolf chased off by a dog does not stop breeding of
  rabbits, or of sheep, pigs and cows.
- **The cow block.** `!player.animals.pig > 0` holds exactly when the pig count is 0. With these
  dice the first-cow and first-horse block never changes a count.
- **The turn holder leaving.** When the current player disconnects, the turn goes to the first
  connected player left, and that player's flags are not reset. A lone remaining player keeps
  playing, because the turn hand-over takes precedence over the two-player stop.
- **The socket map.** `socketPlayerMap` entries are never deleted.
- **A trade with no requested items.** It can be proposed, but accepting it always cancels it,
  because `playerHasAnimals` fails on absent items.
- **A restart after a stopped game.** When a disconnection stops a game (`server.js:525-528`),
  the players keep their animals. A later start refills the bank from the full starting herd
  (`gameLogic.js:69`) and sets each rabbit count to one (`gameLogic.js:81`), so it can add animals
  to the room. A player who kept a sheep, a pig, a cow and a horse is a winner as soon as the
  game restarts (`GameLogic.StartWinners`); the win is only noticed after their next roll.
- **A repeated trade id with an offline target.** The trade is filed and then deleted, which also
  removes an earlier trade filed under the same id.

## Findings

| source | as written | input that shows it | evidently intended | confidence | as-written member | corrected member |
|---|---|---|---|---|---|---|
| server.js:501-528 | `addLogMessageToRoom` is imported but never exported by roomManager.js (lines 111-114). Its first call inside the `disconnect` loop throws into the handler's `catch`. The loop stops after deleting one trade, and neither the turn hand-over nor the two-player stop runs. | Two connected players A and B. A holds the turn and has a pending trade offer to B. A disconnects. | Log the cancellation and carry on: delete every trade naming A, then give the turn to B. | not executed | `Server.AsWrittenStrandsTurn` | `Server.DisconnectedHandsOver` |
