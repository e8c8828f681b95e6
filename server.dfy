/**
 * The socket handlers of server.js, without their messages to clients: each handler's checks, in
 * the order server.js makes them, and its effect on the registry, the rooms and the map from
 * sockets to players. The effects on peer trades and on disconnection are functions on values
 * (`Proposal`, `Answered`, `Disconnected`) with their own lemmas; the handlers are proved
 * against them and against the operations of GameLogic and RoomManager.
 */
module Server {
  import opened Wrappers
  import opened Rules
  import opened Dice
  import opened Bank
  import opened Trading
  import opened Model
  import opened Turns
  import opened GameLogic
  import opened RoomManager

  /** What `socketPlayerMap` records for a socket that has joined a room (server.js:114). */
  datatype Binding = Binding(playerId: PlayerId, roomId: RoomId)

  /** Why a handler turns a request down. */
  datatype Refusal =
    | MissingJoinData          // server.js:91-96
    | NoSuchRoom               // server.js:100-103
    | RoomIsFull               // server.js:105-107
    | GameAlreadyStarted       // server.js:109-111
    | Manager(error: RoomError)   // an error thrown by the registry and caught
    | CannotRoll               // server.js:162-167
    | NotSeated                // handleRollDice throws: the roller is not in the room
    | UnknownSender            // server.js:198, 287
    | GameInactive             // server.js:202-204
    | NotYourTurnToTrade       // server.js:205-207
    | AlreadyActed             // server.js:209-216
    | PlayerMissing            // server.js:221-223
    | SelfTrade                // server.js:224-226
    | LacksOffered             // server.js:229-231
    | BadOfferedAmount         // server.js:233-237
    | BadRequestedAmount       // server.js:238-241
    | TargetOffline            // server.js:263-282
    | NoSuchTrade              // server.js:291-300
    | NotTheTarget             // server.js:302-304
    | ParticipantGone          // server.js:310-315
    | ProposerLacks            // server.js:321-338
    | TargetLacks              // server.js:339-356
    | CannotExchange           // server.js:424-429
    | BankRefused(failure: BankFailure)   // server.js:431-459

  /** What a handler answers: done, silently ignored, a win, a cancelled trade or a refusal. */
  datatype Reply = Done | Ignored | Won(winnerId: PlayerId) | Cancelled(why: Refusal) | Refused(why: Refusal)

  /** The values of a room's changing fields. */
  datatype RoomState = RoomState(players: seq<Player>, gameStarted: bool, gameState: Option<GameState>)

  function StateOf(room: Room): RoomState
    reads room
  {
    RoomState(room.players, room.gameStarted, room.gameState)
  }

  predicate ValidState(s: RoomState)
  {
    ValidRoom(MaxPlayersPerRoom, s.players, s.gameStarted, s.gameState)
  }

  // ---------------------------------------------------------------------------------------------
  // Starting the game once everyone is ready (server.js:126-154)

  /** `players.filter(p => p.isReady).length`. */
  function ReadyCount(ps: seq<Player>): nat
  {
    if ps == [] then 0 else ReadyCount(ps[..|ps| - 1]) + (if ps[|ps| - 1].isReady then 1 else 0)
  }

  /** The ready count reaches the number of players exactly when every player is ready. */
  lemma {:induction false} ReadyCountAll(ps: seq<Player>)
    ensures ReadyCount(ps) <= |ps|
    ensures ReadyCount(ps) == |ps| <==> forall i :: 0 <= i < |ps| ==> ps[i].isReady
    decreases |ps|
  {
    if ps != [] {
      var front := ps[..|ps| - 1];
      ReadyCountAll(front);
      assert forall i :: 0 <= i < |front| ==> front[i] == ps[i];
      if !ps[|ps| - 1].isReady {
        assert !(forall i :: 0 <= i < |ps| ==> ps[i].isReady);
      }
    }
  }

  /** The condition on which `playerReady` starts the game. */
  predicate StartsGame(ps: seq<Player>, started: bool)
  {
    |ps| >= 2 && ReadyCount(ps) == |ps| && !started
  }

  /** A room after the `playerReady` of a seated player: their readiness flips and, when that
      leaves at least two players all ready in a game not yet started, the game starts as
      `initializeGame` starts it. */
  function Readied(s: RoomState, playerId: PlayerId): RoomState
    requires HasPlayer(s.players, playerId)
  {
    var ps := ToggledReady(s.players, FindIndex(s.players, playerId));
    if StartsGame(ps, s.gameStarted) then RoomState(SeatedAll(ps), true, Some(StartState(ps)))
    else s.(players := ps)
  }

  /** The toggle flips only the player's own flag and keeps every seat's id. */
  lemma ReadiedFlags(s: RoomState, playerId: PlayerId)
    requires HasPlayer(s.players, playerId)
    ensures var r := Readied(s, playerId);
            var i := FindIndex(s.players, playerId);
            |r.players| == |s.players| &&
            r.players[i].isReady == !s.players[i].isReady &&
            (forall j :: 0 <= j < |s.players| ==> r.players[j].id == s.players[j].id) &&
            (forall j :: 0 <= j < |s.players| && j != i ==> r.players[j].isReady == s.players[j].isReady)
  {
  }

  /** The game starts exactly when it was not started, at least two players are seated and,
      after the flip, every one of them is ready; the started game gives the turn to the first
      player and every player one rabbit. */
  lemma ReadiedStarts(s: RoomState, playerId: PlayerId)
    requires HasPlayer(s.players, playerId)
    ensures var r := Readied(s, playerId);
            var i := FindIndex(s.players, playerId);
            (r.gameStarted != s.gameStarted <==>
               !s.gameStarted && |s.players| >= 2 && !s.players[i].isReady &&
               forall j :: 0 <= j < |s.players| && j != i ==> s.players[j].isReady) &&
            (r.gameStarted != s.gameStarted ==>
               r.gameState.value.currentPlayerId == Some(s.players[0].id) &&
               forall j :: 0 <= j < |r.players| ==> Count(r.players[j].animals, Rabbit) == 1)
  {
    var i := FindIndex(s.players, playerId);
    var ps := ToggledReady(s.players, i);
    ReadyCountAll(ps);
    assert forall j :: 0 <= j < |ps| && j != i ==> ps[j].isReady == s.players[j].isReady;
    assert ps[i].isReady == !s.players[i].isReady;
  }

  // ---------------------------------------------------------------------------------------------
  // Handing on the turn

  /** The game state once `currentPlayerId` has been set to what `determineNextPlayer` names
      (server.js:186, 512), including the reset of that player's flags. */
  function HandedOn(ps: seq<Player>, gs: GameState, current: PlayerId, skipCurrent: bool): GameState
  {
    var next := NextPlayer(ps, current, skipCurrent);
    gs.(currentPlayerId := next,
        playerTurnState :=
          if next.Some? && ResetsTurn(ps, current) && next.value in gs.playerTurnState
          then gs.playerTurnState[next.value := FreshTurn]
          else gs.playerTurnState)
  }

  /** Handing on the turn gives it to a connected player, or to nobody when nobody is connected,
      keeps the bank and the trades, and keeps every player's turn flags. */
  lemma HandedOnSpec(ps: seq<Player>, gs: GameState, current: PlayerId, skipCurrent: bool)
    ensures var g := HandedOn(ps, gs, current, skipCurrent);
            g.mainHerd == gs.mainHerd && g.pendingTrades == gs.pendingTrades &&
            g.playerTurnState.Keys == gs.playerTurnState.Keys &&
            (g.currentPlayerId.None? <==> forall i :: 0 <= i < |ps| ==> ps[i].socketId.None?) &&
            (g.currentPlayerId.Some? ==>
               exists i :: 0 <= i < |ps| && ps[i].id == g.currentPlayerId.value && ps[i].socketId.Some?)
  {
    NextNoneIff(ps, current, skipCurrent);
    if NextPlayer(ps, current, skipCurrent).Some? {
      NextIsConnected(ps, current, skipCurrent);
    }
  }

  lemma HandedOnKeepsValid(ps: seq<Player>, started: bool, gs: GameState, current: PlayerId, skipCurrent: bool)
    requires ValidRoom(MaxPlayersPerRoom, ps, started, Some(gs))
    ensures ValidRoom(MaxPlayersPerRoom, ps, started, Some(HandedOn(ps, gs, current, skipCurrent)))
  {
    HandedOnSpec(ps, gs, current, skipCurrent);
  }

  // ---------------------------------------------------------------------------------------------
  // Proposing a peer trade (server.js:196-283)

  /** The checks of `proposeTradeToPlayer` once the room is found started, in their order. */
  function ProposalCheck(ps: seq<Player>, gs: GameState, proposer: PlayerId, target: PlayerId,
                         offered: Option<Herd>, requested: Option<Herd>): Outcome<Refusal>
  {
    var i := FindIndex(ps, proposer);
    var j := FindIndex(ps, target);
    if gs.currentPlayerId != Some(proposer) then Fail(NotYourTurnToTrade)
    else if proposer in gs.playerTurnState &&
            (gs.playerTurnState[proposer].hasExchanged || gs.playerTurnState[proposer].hasRolled)
    then Fail(AlreadyActed)
    else if i == -1 || j == -1 then Fail(PlayerMissing)
    else if proposer == target then Fail(SelfTrade)
    else if !PlayerHasAnimals(ps[i].animals, offered) then Fail(LacksOffered)
    else if !AllPositive(offered) then Fail(BadOfferedAmount)
    else if !AllPositive(requested) then Fail(BadRequestedAmount)
    else Pass
  }

  /** The game state after `proposeTradeToPlayer` and the reply: the trade is filed under
      `tradeId` (replacing any trade filed there) and, when the target has no socket, that id is
      deleted again. */
  function Proposal(ps: seq<Player>, gs: GameState, proposer: PlayerId, target: PlayerId,
                    offered: Option<Herd>, requested: Option<Herd>, tradeId: TradeId, timestamp: int)
    : (GameState, Reply)
  {
    var check := ProposalCheck(ps, gs, proposer, target, offered, requested);
    if check.Fail? then (gs, Refused(check.error))
    else
      var p := ps[FindIndex(ps, proposer)];
      var t := ps[FindIndex(ps, target)];
      if t.socketId.None? then (gs.(pendingTrades := gs.pendingTrades - {tradeId}), Refused(TargetOffline))
      else
        var trade := Trade(tradeId, proposer, p.nick, target, t.nick, offered, requested, timestamp);
        (gs.(pendingTrades := gs.pendingTrades[tradeId := trade]), Done)
  }

  /** A proposal is filed exactly when the proposer holds the turn and has neither rolled nor
      exchanged, both players are seated and different, the proposer holds the offered items, every
      quantity is positive and the target is connected; it then files the trade as proposed. */
  lemma ProposalSpec(ps: seq<Player>, gs: GameState, proposer: PlayerId, target: PlayerId,
                     offered: Option<Herd>, requested: Option<Herd>, tradeId: TradeId, timestamp: int)
    ensures var (g, reply) := Proposal(ps, gs, proposer, target, offered, requested, tradeId, timestamp);
            var i := FindIndex(ps, proposer);
            var j := FindIndex(ps, target);
            (reply == Done <==>
               gs.currentPlayerId == Some(proposer) &&
               (proposer in gs.playerTurnState ==>
                  !gs.playerTurnState[proposer].hasExchanged && !gs.playerTurnState[proposer].hasRolled) &&
               i != -1 && j != -1 && proposer != target &&
               PlayerHasAnimals(ps[i].animals, offered) && AllPositive(offered) && AllPositive(requested) &&
               ps[j].socketId.Some?) &&
            (reply == Done ==>
               tradeId in g.pendingTrades &&
               g.pendingTrades[tradeId].proposingPlayerId == proposer &&
               g.pendingTrades[tradeId].targetPlayerId == target &&
               g.pendingTrades[tradeId].offeredItems == offered &&
               g.pendingTrades[tradeId].requestedItems == requested &&
               forall t :: t in gs.pendingTrades && t != tradeId ==> t in g.pendingTrades && g.pendingTrades[t] == gs.pendingTrades[t]) &&
            (reply != Done ==> forall t :: t in g.pendingTrades ==> t in gs.pendingTrades && g.pendingTrades[t] == gs.pendingTrades[t]) &&
            g.(pendingTrades := gs.pendingTrades) == gs
  {
  }

  lemma ProposalKeepsValid(ps: seq<Player>, started: bool, gs: GameState, proposer: PlayerId, target: PlayerId,
                           offered: Option<Herd>, requested: Option<Herd>, tradeId: TradeId, timestamp: int)
    requires ValidRoom(MaxPlayersPerRoom, ps, started, Some(gs))
    ensures ValidRoom(MaxPlayersPerRoom, ps, started,
                      Some(Proposal(ps, gs, proposer, target, offered, requested, tradeId, timestamp).0))
  {
    var check := ProposalCheck(ps, gs, proposer, target, offered, requested);
    if check.Pass? {
      var t := ps[FindIndex(ps, target)];
      if t.socketId.Some? {
        var trade := Trade(tradeId, proposer, ps[FindIndex(ps, proposer)].nick, target, t.nick, offered, requested, timestamp);
        assert TradesWellFormed(gs.(pendingTrades := gs.pendingTrades[tradeId := trade]));
      } else {
        assert TradesWellFormed(gs.(pendingTrades := gs.pendingTrades - {tradeId}));
      }
    }
  }

  // ---------------------------------------------------------------------------------------------
  // Answering a peer trade (server.js:285-415)

  /** The players after an accepted trade between proposer `i` and target `j`: the offered items
      go from `i` to `j`, then the requested items from `j` to `i`. */
  function Settled(ps: seq<Player>, i: int, j: int, offered: Herd, requested: Herd): seq<Player>
    requires 0 <= i < |ps| && 0 <= j < |ps| && i != j
  {
    var p := ps[i].animals;
    var t := ps[j].animals;
    ps[i := ps[i].(animals := Credited(Debited(p, offered), requested))]
      [j := ps[j].(animals := Debited(Credited(t, offered), requested))]
  }

  /** The game state after an accepted trade: the proposer, if they hold the turn, has exchanged,
      and the trade is gone. */
  function AfterAccept(gs: GameState, tradeId: TradeId, proposer: PlayerId): GameState
  {
    var flags := if gs.currentPlayerId == Some(proposer) && proposer in gs.playerTurnState
                 then gs.playerTurnState[proposer := gs.playerTurnState[proposer].(hasExchanged := true)]
                 else gs.playerTurnState;
    gs.(playerTurnState := flags, pendingTrades := gs.pendingTrades - {tradeId})
  }

  /** A room's players and game state after an answer, and the reply. */
  datatype Answer = Answer(players: seq<Player>, gameState: GameState, reply: Reply)

  /** `respondToTradeOffer` once the room is started and the trade `tradeId` is pending, in the
      order of server.js:302-414: the answer must come from the target; a trade whose players are gone,
      a rejected trade and an accepted trade one side can no longer pay are deleted; an accepted
      trade both sides can pay is settled. */
  function Answered(ps: seq<Player>, gs: GameState, responder: PlayerId, tradeId: TradeId, accepted: bool): Answer
    requires tradeId in gs.pendingTrades
    requires gs.pendingTrades[tradeId].proposingPlayerId != gs.pendingTrades[tradeId].targetPlayerId
  {
    var trade := gs.pendingTrades[tradeId];
    var i := FindIndex(ps, trade.proposingPlayerId);
    var j := FindIndex(ps, trade.targetPlayerId);
    var dropped := gs.(pendingTrades := gs.pendingTrades - {tradeId});
    if trade.targetPlayerId != responder then Answer(ps, gs, Refused(NotTheTarget))
    else if i == -1 || j == -1 then Answer(ps, dropped, Refused(ParticipantGone))
    else if !accepted then Answer(ps, dropped, Done)
    else if !PlayerHasAnimals(ps[i].animals, trade.offeredItems) then Answer(ps, dropped, Cancelled(ProposerLacks))
    else if !PlayerHasAnimals(ps[j].animals, trade.requestedItems) then Answer(ps, dropped, Cancelled(TargetLacks))
    else
      Answer(Settled(ps, i, j, trade.offeredItems.value, trade.requestedItems.value),
             AfterAccept(gs, tradeId, trade.proposingPlayerId), Done)
  }

  /** A trade changes hands exactly when its target accepts, both players are still seated and
      both still hold what it names: the offered items then go to the target, the requested ones
      to the proposer, and a proposer who holds the turn has exchanged. A rejection from the target
      is acknowledged without moving anything, and every answer but a refusal to a non-target
      deletes the trade. */
  lemma AnsweredSpec(ps: seq<Player>, gs: GameState, responder: PlayerId, tradeId: TradeId, accepted: bool)
    requires tradeId in gs.pendingTrades && TradesWellFormed(gs)
    ensures var a := Answered(ps, gs, responder, tradeId, accepted);
            var trade := gs.pendingTrades[tradeId];
            var i := FindIndex(ps, trade.proposingPlayerId);
            var j := FindIndex(ps, trade.targetPlayerId);
            (trade.targetPlayerId == responder && i != -1 && j != -1 && accepted &&
             PlayerHasAnimals(ps[i].animals, trade.offeredItems) &&
             PlayerHasAnimals(ps[j].animals, trade.requestedItems) ==>
               a.reply == Done &&
               a.players == Settled(ps, i, j, trade.offeredItems.value, trade.requestedItems.value) &&
               (gs.currentPlayerId == Some(trade.proposingPlayerId) && trade.proposingPlayerId in gs.playerTurnState ==>
                  trade.proposingPlayerId in a.gameState.playerTurnState &&
                  a.gameState.playerTurnState[trade.proposingPlayerId].hasExchanged)) &&
            (trade.targetPlayerId == responder && i != -1 && j != -1 && !accepted ==>
               a.reply == Done && a.players == ps) &&
            (trade.targetPlayerId == responder && (i == -1 || j == -1) ==>
               a.reply == Refused(ParticipantGone) && a.players == ps) &&
            a.gameState.playerTurnState.Keys == gs.playerTurnState.Keys &&
            (a.reply == Refused(NotTheTarget) <==> trade.targetPlayerId != responder) &&
            (a.reply != Refused(NotTheTarget) ==> a.gameState.pendingTrades == gs.pendingTrades - {tradeId}) &&
            (a.players != ps ==>
               accepted && trade.targetPlayerId == responder && a.reply == Done &&
               PlayerHasAnimals(ps[FindIndex(ps, trade.proposingPlayerId)].animals, trade.offeredItems) &&
               PlayerHasAnimals(ps[FindIndex(ps, trade.targetPlayerId)].animals, trade.requestedItems)) &&
            a.gameState.mainHerd == gs.mainHerd && a.gameState.currentPlayerId == gs.currentPlayerId
  {
  }

  /** Settling keeps the distinct ids and every seat's id, and leaves no count negative when the
      proposer held the offered items, the target the requested ones, and both are positive. */
  lemma SettledKeepsValid(ps: seq<Player>, i: int, j: int, offered: Herd, requested: Herd)
    requires 0 <= i < |ps| && 0 <= j < |ps| && i != j
    requires UniqueIds(ps) && NoNegativeCounts(ps, None)
    requires PlayerHasAnimals(ps[i].animals, Some(offered)) && PlayerHasAnimals(ps[j].animals, Some(requested))
    requires AllPositive(Some(offered)) && AllPositive(Some(requested))
    ensures var s := Settled(ps, i, j, offered, requested);
            |s| == |ps| && (forall m :: 0 <= m < |s| ==> s[m].id == ps[m].id) &&
            UniqueIds(s) && NoNegativeCounts(s, None)
  {
    var s := Settled(ps, i, j, offered, requested);
    HasKeepsNonNegative(ps[i].animals, offered);
    CreditKeepsNonNegative(Debited(ps[i].animals, offered), requested);
    forall k ensures Count(Debited(Credited(ps[j].animals, offered), requested), k) >= 0 {
      DebitedCount(Credited(ps[j].animals, offered), requested, k);
      CreditedCount(ps[j].animals, offered, k);
      assert Count(ps[j].animals, k) >= 0;
      assert Count(ps[j].animals, k) >= Count(requested, k);
      assert Count(offered, k) >= 0;
    }
    assert forall m :: 0 <= m < |s| ==> s[m].id == ps[m].id;
  }

  /** Settling a trade keeps the players' total of every kind. */
  lemma SettledConserves(ps: seq<Player>, i: int, j: int, offered: Herd, requested: Herd, k: Kind)
    requires 0 <= i < |ps| && 0 <= j < |ps| && i != j
    ensures PlayersCount(Settled(ps, i, j, offered, requested), k) == PlayersCount(ps, k)
  {
    var a := Credited(Debited(ps[i].animals, offered), requested);
    var b := Debited(Credited(ps[j].animals, offered), requested);
    var p1 := ps[i := ps[i].(animals := a)];
    PlayersCountUpdate(ps, i, a, k);
    PlayersCountUpdate(p1, j, b, k);
    assert p1[j] == ps[j];
    CreditedCount(Debited(ps[i].animals, offered), requested, k);
    DebitedCount(ps[i].animals, offered, k);
    DebitedCount(Credited(ps[j].animals, offered), requested, k);
    CreditedCount(ps[j].animals, offered, k);
  }

  /** Settling the reverse trade (offering back what was received) restores both players' counts. */
  lemma SettledUndone(ps: seq<Player>, i: int, j: int, offered: Herd, requested: Herd)
    requires 0 <= i < |ps| && 0 <= j < |ps| && i != j
    ensures var back := Settled(Settled(ps, i, j, offered, requested), i, j, requested, offered);
            SameCounts(back[i].animals, ps[i].animals) && SameCounts(back[j].animals, ps[j].animals) &&
            forall m :: 0 <= m < |ps| && m != i && m != j ==> back[m] == ps[m]
  {
    var once := Settled(ps, i, j, offered, requested);
    var back := Settled(once, i, j, requested, offered);
    forall k ensures Count(back[i].animals, k) == Count(ps[i].animals, k) &&
                     Count(back[j].animals, k) == Count(ps[j].animals, k)
    {
      CreditedCount(Debited(once[i].animals, requested), offered, k);
      DebitedCount(once[i].animals, requested, k);
      CreditedCount(Debited(ps[i].animals, offered), requested, k);
      DebitedCount(ps[i].animals, offered, k);
      DebitedCount(Credited(once[j].animals, requested), offered, k);
      CreditedCount(once[j].animals, requested, k);
      DebitedCount(Credited(ps[j].animals, offered), requested, k);
      CreditedCount(ps[j].animals, offered, k);
    }
  }

  lemma AnsweredKeepsValid(ps: seq<Player>, gs: GameState, responder: PlayerId, tradeId: TradeId, accepted: bool)
    requires ValidRoom(MaxPlayersPerRoom, ps, true, Some(gs)) && tradeId in gs.pendingTrades
    ensures var a := Answered(ps, gs, responder, tradeId, accepted);
            ValidRoom(MaxPlayersPerRoom, a.players, true, Some(a.gameState))
  {
    var a := Answered(ps, gs, responder, tradeId, accepted);
    var trade := gs.pendingTrades[tradeId];
    AnsweredSpec(ps, gs, responder, tradeId, accepted);
    assert TradesWellFormed(gs.(pendingTrades := gs.pendingTrades - {tradeId}));
    if a.players != ps {
      var i := FindIndex(ps, trade.proposingPlayerId);
      var j := FindIndex(ps, trade.targetPlayerId);
      SettledKeepsValid(ps, i, j, trade.offeredItems.value, trade.requestedItems.value);
    }
  }

  /** No answer creates or destroys an animal: every kind's room total is kept. */
  lemma AnsweredConserves(ps: seq<Player>, gs: GameState, responder: PlayerId, tradeId: TradeId, accepted: bool, k: Kind)
    requires tradeId in gs.pendingTrades && TradesWellFormed(gs)
    ensures var a := Answered(ps, gs, responder, tradeId, accepted);
            RoomTotal(a.players, Some(a.gameState), k) == RoomTotal(ps, Some(gs), k)
  {
    var a := Answered(ps, gs, responder, tradeId, accepted);
    var trade := gs.pendingTrades[tradeId];
    AnsweredSpec(ps, gs, responder, tradeId, accepted);
    if a.players != ps {
      var i := FindIndex(ps, trade.proposingPlayerId);
      var j := FindIndex(ps, trade.targetPlayerId);
      SettledConserves(ps, i, j, trade.offeredItems.value, trade.requestedItems.value, k);
    }
  }

  // ---------------------------------------------------------------------------------------------
  // A dice roll in turn (server.js:156-194)

  /** Whether `playerId` holds the turn of a started game. */
  predicate HoldsTurn(s: RoomState, playerId: PlayerId)
  {
    s.gameStarted && s.gameState.Some? && s.gameState.value.currentPlayerId == Some(playerId)
  }

  /** A started room after a roll of `playerId` with the faces given, and the reply: the roll of
      `handleRollDice`, then either a win, the turn staying with the winner, or the turn handed on
      as `determineNextPlayer(room, playerId)` does. */
  function Rolled(s: RoomState, playerId: PlayerId, die1: Kind, die2: Kind): (RoomState, Reply)
    requires ValidState(s) && s.gameStarted
  {
    var i := FindIndex(s.players, playerId);
    if i == -1 then (s, Refused(NotSeated))
    else
      var gs := s.gameState.value;
      var after := Roll(Herds(s.players[i].animals, gs.mainHerd), die1, die2);
      var ps := WithAnimals(s.players, i, after.player);
      var rolled := RolledState(gs, playerId, after.bank, die1, die2);
      if CheckWinCondition(after.player) then (RoomState(ps, true, Some(rolled)), Won(playerId))
      else (RoomState(ps, true, Some(HandedOn(ps, rolled, playerId, false))), Done)
  }

  /** A roll keeps the room invariant and every kind's room total; it is a win exactly when the
      roller's new herd holds every kind, and then the turn stays; otherwise the turn goes to a
      connected player, or to nobody when nobody is connected. */
  lemma RolledSpec(s: RoomState, playerId: PlayerId, die1: Kind, die2: Kind)
    requires ValidState(s) && s.gameStarted
    ensures var (r, reply) := Rolled(s, playerId, die1, die2);
            var i := FindIndex(s.players, playerId);
            ValidState(r) && r.gameStarted &&
            (forall k :: RoomTotal(r.players, r.gameState, k) == RoomTotal(s.players, s.gameState, k)) &&
            (i == -1 <==> reply == Refused(NotSeated)) &&
            (i != -1 ==> (reply.Won? <==> CheckWinCondition(r.players[i].animals))) &&
            (reply.Won? ==> reply.winnerId == playerId &&
                            r.gameState.value.currentPlayerId == s.gameState.value.currentPlayerId) &&
            (reply == Done && r.gameState.value.currentPlayerId.Some? ==>
               exists j :: 0 <= j < |r.players| && r.players[j].id == r.gameState.value.currentPlayerId.value &&
                           r.players[j].socketId.Some?)
  {
    var i := FindIndex(s.players, playerId);
    if i != -1 {
      var gs := s.gameState.value;
      RollKeepsValidRoom(s.players, gs, i, die1, die2);
      var after := Roll(Herds(s.players[i].animals, gs.mainHerd), die1, die2);
      var ps := WithAnimals(s.players, i, after.player);
      var rolled := RolledState(gs, playerId, after.bank, die1, die2);
      HandedOnKeepsValid(ps, true, rolled, playerId, false);
      HandedOnSpec(ps, rolled, playerId, false);
    }
  }

  // ---------------------------------------------------------------------------------------------
  // Disconnection (server.js:462-530)

  predicate Involves(trade: Trade, playerId: PlayerId)
  {
    trade.proposingPlayerId == playerId || trade.targetPlayerId == playerId
  }

  /** The pending trades that do not name `playerId`. */
  function TradesKept(trades: map<TradeId, Trade>, playerId: PlayerId): map<TradeId, Trade>
  {
    map t | t in trades && !Involves(trades[t], playerId) :: trades[t]
  }

  /** The `forEach` of `disconnect` over the pending trades: every trade naming the player is
      deleted by its id; the others stay as they were. */
  method CancelTradesOf(trades: map<TradeId, Trade>, playerId: PlayerId) returns (kept: map<TradeId, Trade>)
    requires forall t :: t in trades ==> trades[t].tradeId == t
    ensures forall t :: t in kept <==> t in trades && !Involves(trades[t], playerId)
    ensures forall t :: t in kept ==> kept[t] == trades[t]
    ensures kept == TradesKept(trades, playerId)
  {
    kept := trades;
    var todo := trades.Keys;
    while todo != {}
      invariant todo <= trades.Keys
      invariant forall t :: t in kept <==> t in trades && (t in todo || !Involves(trades[t], playerId))
      invariant forall t :: t in kept ==> kept[t] == trades[t]
      decreases todo
    {
      var t :| t in todo;
      var trade := trades[t];
      if Involves(trade, playerId) {
        kept := kept - {trade.tradeId};
      }
      todo := todo - {t};
    }
  }

  /** A room once `removePlayerFromSocketRoom` has spliced the player out. */
  function Departed(s: RoomState, playerId: PlayerId): RoomState
  {
    var i := FindIndex(s.players, playerId);
    s.(players := if i == -1 then s.players else Without(s.players, i))
  }

  /** The rest of `disconnect` once the player is out: every trade naming them is deleted; then,
      if they held the turn of a started game and someone is left, the turn is handed on as
      `determineNextPlayer(room, playerId, true)` does, and otherwise a started game with fewer
      than two players left stops. */
  function AfterLeaving(s: RoomState, playerId: PlayerId, wasCurrent: bool): RoomState
  {
    var gs := if s.gameState.Some?
              then Some(s.gameState.value.(pendingTrades := TradesKept(s.gameState.value.pendingTrades, playerId)))
              else None;
    if wasCurrent && s.gameStarted && |s.players| > 0 && gs.Some? then
      s.(gameState := Some(HandedOn(s.players, gs.value, playerId, true)))
    else if s.gameStarted && |s.players| < 2 then s.(gameStarted := false, gameState := gs)
    else s.(gameState := gs)
  }

  /** A room after `disconnect` of `playerId`. */
  function Disconnected(s: RoomState, playerId: PlayerId): RoomState
  {
    AfterLeaving(Departed(s, playerId), playerId, HoldsTurn(s, playerId))
  }

  /** The player leaves with their animals; the rest of the room stays. */
  lemma DepartedSpec(s: RoomState, playerId: PlayerId)
    requires ValidState(s)
    ensures var r := Departed(s, playerId);
            var i := FindIndex(s.players, playerId);
            ValidState(r) && !HasPlayer(r.players, playerId) &&
            r.gameStarted == s.gameStarted && r.gameState == s.gameState &&
            |r.players| == |s.players| - (if i == -1 then 0 else 1) &&
            forall k :: RoomTotal(r.players, r.gameState, k) ==
                        RoomTotal(s.players, s.gameState, k) - (if i == -1 then 0 else Count(s.players[i].animals, k))
  {
    var i := FindIndex(s.players, playerId);
    if i != -1 {
      WithoutSpec(s.players, i);
      WithoutKeepsValid(s.players, s.gameStarted, s.gameState, i);
      forall k ensures PlayersCount(Without(s.players, i), k) == PlayersCount(s.players, k) - Count(s.players[i].animals, k) {
        WithoutCount(s.players, i, k);
      }
    }
  }

  lemma TradesKeptKeepsValid(ps: seq<Player>, started: bool, gs: GameState, playerId: PlayerId)
    requires ValidRoom(MaxPlayersPerRoom, ps, started, Some(gs))
    ensures ValidRoom(MaxPlayersPerRoom, ps, started,
                      Some(gs.(pendingTrades := TradesKept(gs.pendingTrades, playerId))))
  {
  }

  /** Cancelling the player's trades and handing on the turn keep the room invariant, the players
      and the bank, and leave no trade naming the player. */
  lemma AfterLeavingSpec(s: RoomState, playerId: PlayerId, wasCurrent: bool)
    requires ValidState(s)
    ensures var r := AfterLeaving(s, playerId, wasCurrent);
            ValidState(r) && r.players == s.players &&
            (r.gameState.Some? <==> s.gameState.Some?) &&
            (r.gameState.Some? ==> r.gameState.value.mainHerd == s.gameState.value.mainHerd &&
                                   forall t :: t in r.gameState.value.pendingTrades ==>
                                     !Involves(r.gameState.value.pendingTrades[t], playerId))
  {
    if s.gameState.Some? {
      var gs := s.gameState.value.(pendingTrades := TradesKept(s.gameState.value.pendingTrades, playerId));
      TradesKeptKeepsValid(s.players, s.gameStarted, s.gameState.value, playerId);
      HandedOnKeepsValid(s.players, s.gameStarted, gs, playerId, true);
      HandedOnSpec(s.players, gs, playerId, true);
    }
  }

  /** After a disconnection the player is gone with their animals, no trade names them, the
      bank is unchanged and the room invariant still holds. */
  lemma DisconnectedSpec(s: RoomState, playerId: PlayerId)
    requires ValidState(s)
    ensures var r := Disconnected(s, playerId);
            var i := FindIndex(s.players, playerId);
            ValidState(r) && !HasPlayer(r.players, playerId) &&
            (r.gameState.Some? <==> s.gameState.Some?) &&
            (r.gameState.Some? ==> r.gameState.value.mainHerd == s.gameState.value.mainHerd &&
                                   forall t :: t in r.gameState.value.pendingTrades ==>
                                     !Involves(r.gameState.value.pendingTrades[t], playerId)) &&
            forall k :: RoomTotal(r.players, r.gameState, k) ==
                        RoomTotal(s.players, s.gameState, k) - (if i == -1 then 0 else Count(s.players[i].animals, k))
  {
    var d := Departed(s, playerId);
    DepartedSpec(s, playerId);
    AfterLeavingSpec(d, playerId, HoldsTurn(s, playerId));
  }

  /** When the player holding the turn leaves a started game and someone is left, the game goes
      on and the turn passes to the first connected player left, or to nobody when none is
      connected; when nobody is left the game stops. */
  lemma DisconnectedHandsOver(s: RoomState, playerId: PlayerId)
    requires ValidState(s) && HoldsTurn(s, playerId)
    ensures var r := Disconnected(s, playerId);
            var act := Active(r.players);
            (|r.players| > 0 ==> r.gameStarted && r.gameState.Some? &&
                                 r.gameState.value.currentPlayerId == (if act == [] then None else Some(act[0].id))) &&
            (|r.players| == 0 ==> !r.gameStarted)
  {
    var d := Departed(s, playerId);
    DepartedSpec(s, playerId);
    NextWhenAbsent(d.players, playerId, true);
  }

  /** When anyone else leaves a started game of two, the game stops. */
  lemma DisconnectedEndsShortGame(s: RoomState, playerId: PlayerId)
    requires ValidState(s) && s.gameStarted && !HoldsTurn(s, playerId)
    requires HasPlayer(s.players, playerId) && |s.players| <= 2
    ensures !Disconnected(s, playerId).gameStarted
  {
    DepartedSpec(s, playerId);
  }

  /** `disconnect` as written. Its first cancellation of a trade naming the player calls
      `addLogMessageToRoom`, which roomManager.js does not export; the call throws into the
      handler's `catch`, so only that one trade (`first`, the earliest filed, whose order the model
      does not keep) is deleted, and the hand-over of the turn and the stop of a short game never
      happen. */
  function DisconnectedAsWritten(s: RoomState, playerId: PlayerId, first: Option<TradeId>): (r: RoomState)
    requires first.Some? ==> s.gameState.Some? && first.value in s.gameState.value.pendingTrades &&
                             Involves(s.gameState.value.pendingTrades[first.value], playerId)
    requires first.None? ==> s.gameState.None? ||
                             forall t :: t in s.gameState.value.pendingTrades ==>
                               !Involves(s.gameState.value.pendingTrades[t], playerId)
    ensures r.players == Disconnected(s, playerId).players
    ensures first.None? ==> r == Disconnected(s, playerId)
    ensures first.Some? ==> r.gameStarted == s.gameStarted && r.gameState.Some? &&
                            r.gameState.value.currentPlayerId == s.gameState.value.currentPlayerId &&
                            r.gameState.value.pendingTrades.Keys == s.gameState.value.pendingTrades.Keys - {first.value}
  {
    var d := Departed(s, playerId);
    if first.Some?
    then d.(gameState := Some(s.gameState.value.(pendingTrades := s.gameState.value.pendingTrades - {first.value})))
    else Disconnected(s, playerId)
  }

  /** As written, a player who holds the turn and leaves while a trade names them takes the turn
      with them: the game stays started and no seated player holds the turn, so every later roll,
      proposal and bank exchange of the others is refused. */
  lemma AsWrittenStrandsTurn(s: RoomState, playerId: PlayerId, first: TradeId)
    requires ValidState(s) && HoldsTurn(s, playerId)
    requires first in s.gameState.value.pendingTrades && Involves(s.gameState.value.pendingTrades[first], playerId)
    ensures var r := DisconnectedAsWritten(s, playerId, Some(first));
            r.gameStarted && HoldsTurn(r, playerId) && !HasPlayer(r.players, playerId) &&
            forall q :: q != playerId ==> !HoldsTurn(r, q)
  {
    DepartedSpec(s, playerId);
  }

  /** The same on values: two connected players, the first holding the turn and having offered
      the second a trade, and the first leaves. As written the turn stays with the player who
      left; with the log call a plain append it passes to the second. */
  lemma AsWrittenStrandsTurnExample()
    ensures var a := Player("a", "A", Some("sa"), EmptyAnimals[Rabbit := 1], true);
            var b := Player("b", "B", Some("sb"), EmptyAnimals[Rabbit := 1], true);
            var trade := Trade("t", "a", "A", "b", "B", Some(map[Rabbit := 1]), None, 0);
            var gs := GameState(InitialMainHerd[Rabbit := 58], Some("a"), None,
                                map["a" := FreshTurn, "b" := FreshTurn], map["t" := trade]);
            var s := RoomState([a, b], true, Some(gs));
            ValidState(s) &&
            HoldsTurn(DisconnectedAsWritten(s, "a", Some("t")), "a") &&
            HoldsTurn(Disconnected(s, "a"), "b")
  {
    var a := Player("a", "A", Some("sa"), EmptyAnimals[Rabbit := 1], true);
    var b := Player("b", "B", Some("sb"), EmptyAnimals[Rabbit := 1], true);
    var trade := Trade("t", "a", "A", "b", "B", Some(map[Rabbit := 1]), None, 0);
    var gs := GameState(InitialMainHerd[Rabbit := 58], Some("a"), None,
                        map["a" := FreshTurn, "b" := FreshTurn], map["t" := trade]);
    var s := RoomState([a, b], true, Some(gs));
    assert FindIndex([a, b], "a") == 0;
    assert Without([a, b], 0) == [b];
    assert Active([b]) == [b];
    assert FindIndex([b], "a") == -1;
    assert NextPlayer([b], "a", true) == Some("b");
    assert NonNegative(EmptyAnimals[Rabbit := 1]);
    assert NonNegative(InitialMainHerd[Rabbit := 58]);
  }

  // ---------------------------------------------------------------------------------------------
  // The handlers' work on one room

  /** The roll part of `rollDice` on a started room. */
  method RollInRoom(room: Room, playerId: PlayerId, die1: Kind, die2: Kind) returns (reply: Reply)
    requires room.Valid() && room.gameStarted
    modifies room
    ensures (StateOf(room), reply) == Rolled(old(StateOf(room)), playerId, die1, die2)
    ensures reply.Refused? ==> unchanged(room)
    ensures room.Valid()
  {
    RolledSpec(StateOf(room), playerId, die1, die2);
    var i := FindIndex(room.players, playerId);
    var result := HandleRollDice(room, playerId, die1, die2);
    if result.Failure? {
      return Refused(NotSeated);
    }
    if CheckWinCondition(room.players[i].animals) {
      return Won(playerId);
    }
    var next := DetermineNextPlayer(room, playerId, false);
    var gs := room.gameState.value;
    room.gameState := Some(gs.(currentPlayerId := next));
    return Done;
  }

  /** The part of `proposeTradeToPlayer` after the room is found started. */
  method ProposeInRoom(room: Room, proposer: PlayerId, target: PlayerId, offered: Option<Herd>,
                       requested: Option<Herd>, tradeId: TradeId, timestamp: int) returns (reply: Reply)
    requires room.Valid() && room.gameStarted
    modifies room
    ensures var p := Proposal(old(room.players), old(room.gameState.value), proposer, target, offered, requested, tradeId, timestamp);
            reply == p.1 && room.gameState == Some(p.0)
    ensures room.players == old(room.players) && room.gameStarted && room.Valid()
    ensures reply.Refused? && reply != Refused(TargetOffline) ==> unchanged(room)
  {
    var gs := room.gameState.value;
    var check := ProposalCheck(room.players, gs, proposer, target, offered, requested);
    if check.Fail? {
      return Refused(check.error);
    }
    var proposing := room.players[FindIndex(room.players, proposer)];
    var targeted := room.players[FindIndex(room.players, target)];
    var trade := Trade(tradeId, proposer, proposing.nick, target, targeted.nick, offered, requested, timestamp);
    ProposalKeepsValid(room.players, room.gameStarted, gs, proposer, target, offered, requested, tradeId, timestamp);
    room.gameState := Some(gs.(pendingTrades := gs.pendingTrades[tradeId := trade]));
    if targeted.socketId.None? {
      assert gs.pendingTrades[tradeId := trade] - {tradeId} == gs.pendingTrades - {tradeId};
      room.gameState := Some(gs.(pendingTrades := room.gameState.value.pendingTrades - {tradeId}));
      return Refused(TargetOffline);
    }
    return Done;
  }

  /** The part of `respondToTradeOffer` after the pending trade is found in a started room. */
  method AnswerInRoom(room: Room, responder: PlayerId, tradeId: TradeId, accepted: bool) returns (reply: Reply)
    requires room.Valid() && room.gameStarted && tradeId in room.gameState.value.pendingTrades
    modifies room
    ensures var a := Answered(old(room.players), old(room.gameState.value), responder, tradeId, accepted);
            reply == a.reply && room.players == a.players && room.gameState == Some(a.gameState)
    ensures room.gameStarted && room.Valid()
    ensures forall k :: room.Total(k) == old(room.Total(k))
    ensures reply == Refused(NotTheTarget) ==> unchanged(room)
  {
    var gs := room.gameState.value;
    var trade := gs.pendingTrades[tradeId];
    AnsweredKeepsValid(room.players, gs, responder, tradeId, accepted);
    forall k ensures RoomTotal(Answered(room.players, gs, responder, tradeId, accepted).players,
                               Some(Answered(room.players, gs, responder, tradeId, accepted).gameState), k) ==
                     RoomTotal(room.players, Some(gs), k) {
      AnsweredConserves(room.players, gs, responder, tradeId, accepted, k);
    }
    if trade.targetPlayerId != responder {
      return Refused(NotTheTarget);
    }
    var i := FindIndex(room.players, trade.proposingPlayerId);
    var j := FindIndex(room.players, trade.targetPlayerId);
    var dropped := gs.(pendingTrades := gs.pendingTrades - {tradeId});
    if i == -1 || j == -1 {
      room.gameState := Some(dropped);
      return Refused(ParticipantGone);
    }
    if !accepted {
      room.gameState := Some(dropped);
      return Done;
    }
    if !PlayerHasAnimals(room.players[i].animals, trade.offeredItems) {
      room.gameState := Some(dropped);
      return Cancelled(ProposerLacks);
    }
    if !PlayerHasAnimals(room.players[j].animals, trade.requestedItems) {
      room.gameState := Some(dropped);
      return Cancelled(TargetLacks);
    }
    var proposerAnimals, targetAnimals := TransferAnimals(room.players[i].animals, room.players[j].animals, trade.offeredItems);
    targetAnimals, proposerAnimals := TransferAnimals(targetAnimals, proposerAnimals, trade.requestedItems);
    room.players := room.players[i := room.players[i].(animals := proposerAnimals)]
                                [j := room.players[j].(animals := targetAnimals)];
    room.gameState := Some(AfterAccept(gs, tradeId, trade.proposingPlayerId));
    return Done;
  }

  /** The part of `disconnect` after the player is out of the room. */
  method FinishDeparture(room: Room, playerId: PlayerId, wasCurrent: bool)
    requires room.Valid()
    modifies room
    ensures StateOf(room) == AfterLeaving(old(StateOf(room)), playerId, wasCurrent)
    ensures room.Valid()
  {
    AfterLeavingSpec(StateOf(room), playerId, wasCurrent);
    if room.gameState.Some? {
      var gs := room.gameState.value;
      TradesKeptKeepsValid(room.players, room.gameStarted, gs, playerId);
      var kept := CancelTradesOf(gs.pendingTrades, playerId);
      room.gameState := Some(gs.(pendingTrades := kept));
    }
    if wasCurrent && room.gameStarted && |room.players| > 0 && room.gameState.Some? {
      var next := DetermineNextPlayer(room, playerId, true);
      var gs := room.gameState.value;
      room.gameState := Some(gs.(currentPlayerId := next));
    } else if room.gameStarted && |room.players| < 2 {
      room.gameStarted := false;
    }
  }

  /** The part of `playerReady` after the toggle: the game starts once at least two players are
      all ready. */
  method StartWhenAllReady(room: Room)
    requires room.Valid()
    modifies room
    ensures StateOf(room) == (if StartsGame(old(room.players), old(room.gameStarted))
                              then RoomState(SeatedAll(old(room.players)), true, Some(StartState(old(room.players))))
                              else old(StateOf(room)))
    ensures room.Valid()
  {
    if |room.players| >= 2 && ReadyCount(room.players) == |room.players| && !room.gameStarted {
      var started := InitializeGame(room);
    }
  }

  // ---------------------------------------------------------------------------------------------
  // The server

  /** The server's state: the room registry and `socketPlayerMap` (server.js:35). */
  class Server {
    const registry: Registry
    var socketPlayerMap: map<SocketId, Binding>

    constructor (registry: Registry)
      requires registry.Valid()
      ensures this.registry == registry && socketPlayerMap == map[] && Valid()
    {
      this.registry := registry;
      socketPlayerMap := map[];
    }

    predicate Valid()
      reads registry, registry.rooms.Values
    {
      registry.Valid()
    }

    /** The `joinRoom` handler with the nick the player registered under: refuses missing ids, a
        missing room, and a newcomer to a full room or a started game; otherwise binds the socket to
        the player's seat, as `addPlayerToSocketRoom` does, and records the socket's player. */
    method JoinRoom(socketId: SocketId, roomId: RoomId, playerId: PlayerId, nick: string) returns (reply: Reply)
      requires Valid()
      modifies this, registry.rooms.Values
      ensures Valid() && registry.rooms == old(registry.rooms)
      ensures roomId == "" || playerId == "" ==> reply == Refused(MissingJoinData)
      ensures roomId != "" && playerId != "" && roomId !in registry.rooms ==> reply == Refused(NoSuchRoom)
      ensures roomId != "" && playerId != "" && roomId in registry.rooms ==>
        var room := registry.rooms[roomId];
        var ps := old(room.players);
        var member := HasPlayer(ps, playerId);
        (!member && |ps| >= room.maxPlayers ==> reply == Refused(RoomIsFull)) &&
        (!member && |ps| < room.maxPlayers && room.gameStarted ==> reply == Refused(GameAlreadyStarted)) &&
        (member || (|ps| < room.maxPlayers && !room.gameStarted) ==>
           reply == Done &&
           Bound(ps, room.maxPlayers, room.gameStarted, playerId, nick, socketId).Success? &&
           room.players == Bound(ps, room.maxPlayers, room.gameStarted, playerId, nick, socketId).value &&
           room.gameStarted == old(room.gameStarted) && room.gameState == old(room.gameState) &&
           socketPlayerMap == old(socketPlayerMap)[socketId := Binding(playerId, roomId)] &&
           registry.IsPlayerInRoom(roomId, playerId))
      ensures reply != Done ==>
        socketPlayerMap == old(socketPlayerMap) && forall id :: id in registry.rooms ==> unchanged(registry.rooms[id])
      ensures forall id :: id in registry.rooms && id != roomId ==> unchanged(registry.rooms[id])
    {
      if roomId == "" || playerId == "" {
        return Refused(MissingJoinData);
      }
      var found := registry.GetRoom(roomId);
      if found.None? {
        return Refused(NoSuchRoom);
      }
      var room := found.value;
      if !registry.IsPlayerInRoom(roomId, playerId) && |room.players| >= room.maxPlayers {
        return Refused(RoomIsFull);
      }
      if room.gameStarted && !registry.IsPlayerInRoom(roomId, playerId) {
        return Refused(GameAlreadyStarted);
      }
      BoundSucceeds(room.players, room.maxPlayers, room.gameStarted, playerId, nick, socketId);
      var added := registry.AddPlayerToSocketRoom(socketId, roomId, playerId, nick);
      socketPlayerMap := socketPlayerMap[socketId := Binding(playerId, roomId)];
      return Done;
    }

    /** The `playerReady` handler: ignores an unknown socket; refuses what `setPlayerReady` refuses;
        otherwise the room becomes what `Readied` gives. */
    method PlayerReady(socketId: SocketId) returns (reply: Reply)
      requires Valid()
      modifies registry.rooms.Values
      ensures Valid()
      ensures socketId !in socketPlayerMap ==> reply == Ignored
      ensures reply != Done ==> forall id :: id in registry.rooms ==> unchanged(registry.rooms[id])
      ensures socketId in socketPlayerMap ==>
        var b := socketPlayerMap[socketId];
        if b.roomId !in registry.rooms || old(registry.rooms[b.roomId].gameStarted)
        then reply == Refused(Manager(CannotToggleReady))
        else if !HasPlayer(old(registry.rooms[b.roomId].players), b.playerId)
        then reply == Refused(Manager(PlayerNotInRoom))
        else reply == Done &&
             StateOf(registry.rooms[b.roomId]) == Readied(old(StateOf(registry.rooms[b.roomId])), b.playerId)
      ensures forall id :: id in registry.rooms && (socketId !in socketPlayerMap || id != socketPlayerMap[socketId].roomId) ==>
                unchanged(registry.rooms[id])
    {
      if socketId !in socketPlayerMap {
        return Ignored;
      }
      var b := socketPlayerMap[socketId];
      var toggled := registry.SetPlayerReady(b.roomId, b.playerId);
      if toggled.Failure? {
        return Refused(Manager(toggled.error));
      }
      var room := toggled.value;
      assert StateOf(room) == old(StateOf(registry.rooms[b.roomId])).(players := room.players);
      StartWhenAllReady(room);
      return Done;
    }

    /** The `rollDice` handler with the faces given: ignores an unknown socket; refuses a roll
        outside a started game or out of turn; otherwise the room and the reply are what `Rolled`
        gives. */
    method RollDice(socketId: SocketId, die1: Kind, die2: Kind) returns (reply: Reply)
      requires Valid()
      modifies registry.rooms.Values
      ensures Valid()
      ensures socketId !in socketPlayerMap ==> reply == Ignored
      ensures socketId in socketPlayerMap ==>
        var b := socketPlayerMap[socketId];
        if b.roomId in registry.rooms && old(HoldsTurn(StateOf(registry.rooms[b.roomId]), b.playerId))
        then (StateOf(registry.rooms[b.roomId]), reply) == Rolled(old(StateOf(registry.rooms[b.roomId])), b.playerId, die1, die2)
        else reply == Refused(CannotRoll)
      ensures reply == Ignored || reply.Refused? ==> forall id :: id in registry.rooms ==> unchanged(registry.rooms[id])
      ensures forall id :: id in registry.rooms && (socketId !in socketPlayerMap || id != socketPlayerMap[socketId].roomId) ==>
                unchanged(registry.rooms[id])
    {
      if socketId !in socketPlayerMap {
        return Ignored;
      }
      var b := socketPlayerMap[socketId];
      var found := registry.GetRoom(b.roomId);
      if found.None? || !found.value.gameStarted || found.value.gameState.value.currentPlayerId != Some(b.playerId) {
        return Refused(CannotRoll);
      }
      reply := RollInRoom(found.value, b.playerId, die1, die2);
    }

    /** The `proposeTradeToPlayer` handler with the trade id and the time given: refuses an unknown
        socket and a room that is missing or not started; otherwise the game state and the reply
        are what `Proposal` gives. Nobody's animals change. */
    method ProposeTrade(socketId: SocketId, targetPlayerId: PlayerId, offeredItems: Option<Herd>,
                        requestedItems: Option<Herd>, tradeId: TradeId, timestamp: int) returns (reply: Reply)
      requires Valid()
      modifies registry.rooms.Values
      ensures Valid()
      ensures socketId !in socketPlayerMap ==> reply == Refused(UnknownSender)
      ensures socketId in socketPlayerMap ==>
        var b := socketPlayerMap[socketId];
        if b.roomId in registry.rooms && old(registry.rooms[b.roomId].gameStarted) then
          var room := registry.rooms[b.roomId];
          var p := Proposal(old(room.players), old(room.gameState.value), b.playerId, targetPlayerId,
                            offeredItems, requestedItems, tradeId, timestamp);
          reply == p.1 && room.gameState == Some(p.0)
        else reply == Refused(GameInactive)
      ensures reply.Refused? && reply != Refused(TargetOffline) ==>
        forall id :: id in registry.rooms ==> unchanged(registry.rooms[id])
      ensures forall id :: id in registry.rooms ==>
                registry.rooms[id].players == old(registry.rooms[id].players) &&
                registry.rooms[id].gameStarted == old(registry.rooms[id].gameStarted)
      ensures forall id :: id in registry.rooms && (socketId !in socketPlayerMap || id != socketPlayerMap[socketId].roomId) ==>
                unchanged(registry.rooms[id])
    {
      if socketId !in socketPlayerMap {
        return Refused(UnknownSender);
      }
      var b := socketPlayerMap[socketId];
      var found := registry.GetRoom(b.roomId);
      if found.None? || !found.value.gameStarted {
        return Refused(GameInactive);
      }
      reply := ProposeInRoom(found.value, b.playerId, targetPlayerId, offeredItems, requestedItems, tradeId, timestamp);
    }

    /** The `respondToTradeOffer` handler: refuses an unknown socket, and a trade that is not
        pending in a started room; otherwise the room's players and game state and the reply are
        what `Answered` gives, the items moving by two calls of `transferAnimals`. Every kind's room
        total is kept. */
    method RespondToTrade(socketId: SocketId, tradeId: TradeId, accepted: bool) returns (reply: Reply)
      requires Valid()
      modifies registry.rooms.Values
      ensures Valid()
      ensures socketId !in socketPlayerMap ==> reply == Refused(UnknownSender)
      ensures socketId in socketPlayerMap ==>
        var b := socketPlayerMap[socketId];
        if b.roomId in registry.rooms && old(registry.rooms[b.roomId].gameStarted) &&
           tradeId in old(registry.rooms[b.roomId].gameState.value.pendingTrades)
        then
          var room := registry.rooms[b.roomId];
          var a := Answered(old(room.players), old(room.gameState.value), b.playerId, tradeId, accepted);
          reply == a.reply && room.players == a.players && room.gameState == Some(a.gameState) &&
          room.gameStarted
        else reply == Refused(NoSuchTrade)
      ensures reply == Refused(UnknownSender) || reply == Refused(NoSuchTrade) || reply == Refused(NotTheTarget) ==>
        forall id :: id in registry.rooms ==> unchanged(registry.rooms[id])
      ensures forall id, k :: id in registry.rooms ==> registry.rooms[id].Total(k) == old(registry.rooms[id].Total(k))
      ensures forall id :: id in registry.rooms && (socketId !in socketPlayerMap || id != socketPlayerMap[socketId].roomId) ==>
                unchanged(registry.rooms[id])
    {
      if socketId !in socketPlayerMap {
        return Refused(UnknownSender);
      }
      var b := socketPlayerMap[socketId];
      var found := registry.GetRoom(b.roomId);
      if found.None? || !found.value.gameStarted || tradeId !in found.value.gameState.value.pendingTrades {
        return Refused(NoSuchTrade);
      }
      reply := AnswerInRoom(found.value, b.playerId, tradeId, accepted);
    }

    /** The `exchangeWithBank` handler: ignores an unknown socket; refuses an exchange outside a
        started game or out of turn; otherwise exchanges as `handleExchangeWithBank` does. The turn
        stays where it is and every kind's room total is kept. */
    method ExchangeWithBank(socketId: SocketId, fromAnimal: Kind, fromAmount: Option<int>, toAnimal: Kind)
      returns (reply: Reply)
      requires Valid()
      modifies registry.rooms.Values
      ensures Valid()
      ensures socketId !in socketPlayerMap ==> reply == Ignored
      ensures reply != Done ==> forall id :: id in registry.rooms ==> unchanged(registry.rooms[id])
      ensures socketId in socketPlayerMap ==>
        var b := socketPlayerMap[socketId];
        if b.roomId in registry.rooms && old(HoldsTurn(StateOf(registry.rooms[b.roomId]), b.playerId)) then
          var room := registry.rooms[b.roomId];
          var i := FindIndex(old(room.players), b.playerId);
          (i == -1 ==> reply == Refused(BankRefused(NoSuchPlayer))) &&
          (i != -1 ==>
             var gs := old(room.gameState.value);
             var x := Exchange(Herds(old(room.players)[i].animals, gs.mainHerd), fromAnimal, fromAmount, toAnimal);
             (x.Failure? ==> reply == Refused(BankRefused(CheckFailed(x.error)))) &&
             (x.Success? ==> reply == Done &&
                             room.players == WithAnimals(old(room.players), i, x.value.player) &&
                             room.gameState == Some(ExchangedState(gs, b.playerId, x.value.bank))))
        else reply == Refused(CannotExchange)
      ensures forall id :: id in registry.rooms ==>
                registry.rooms[id].gameStarted == old(registry.rooms[id].gameStarted) &&
                (registry.rooms[id].gameState.Some? <==> old(registry.rooms[id].gameState).Some?) &&
                (registry.rooms[id].gameState.Some? ==>
                   registry.rooms[id].gameState.value.currentPlayerId == old(registry.rooms[id].gameState.value.currentPlayerId))
      ensures forall id, k :: id in registry.rooms ==> registry.rooms[id].Total(k) == old(registry.rooms[id].Total(k))
      ensures forall id :: id in registry.rooms && (socketId !in socketPlayerMap || id != socketPlayerMap[socketId].roomId) ==>
                unchanged(registry.rooms[id])
    {
      if socketId !in socketPlayerMap {
        return Ignored;
      }
      var b := socketPlayerMap[socketId];
      var found := registry.GetRoom(b.roomId);
      if found.None? || !found.value.gameStarted || found.value.gameState.value.currentPlayerId != Some(b.playerId) {
        return Refused(CannotExchange);
      }
      var result := HandleExchangeWithBank(found.value, b.playerId, fromAnimal, fromAmount, toAnimal);
      if result.Fail? {
        return Refused(BankRefused(result.error));
      }
      return Done;
    }

    /** The `disconnect` handler: ignores a socket with no player or whose room is gone; otherwise
        the player leaves the registry's room as `removePlayerFromSocketRoom` does (the room is
        deleted when nobody is left) and the room becomes what `Disconnected` gives. The socket's
        record in `socketPlayerMap` stays. */
    method Disconnect(socketId: SocketId) returns (reply: Reply)
      requires Valid()
      modifies registry, registry.rooms.Values
      ensures Valid()
      ensures socketId !in socketPlayerMap || socketPlayerMap[socketId].roomId !in old(registry.rooms) ==>
        reply == Ignored && registry.rooms == old(registry.rooms) &&
        forall id :: id in registry.rooms ==> unchanged(registry.rooms[id])
      ensures socketId in socketPlayerMap && socketPlayerMap[socketId].roomId in old(registry.rooms) ==>
        var b := socketPlayerMap[socketId];
        var room := old(registry.rooms)[b.roomId];
        reply == Done &&
        StateOf(room) == Disconnected(old(StateOf(room)), b.playerId) &&
        registry.rooms == (if HasPlayer(old(room.players), b.playerId) && |old(room.players)| == 1
                           then old(registry.rooms) - {b.roomId} else old(registry.rooms))
      ensures forall id :: id in old(registry.rooms) && (socketId !in socketPlayerMap || id != socketPlayerMap[socketId].roomId) ==>
                unchanged(old(registry.rooms)[id])
    {
      if socketId !in socketPlayerMap {
        return Ignored;
      }
      var b := socketPlayerMap[socketId];
      var found := registry.GetRoom(b.roomId);
      if found.None? {
        return Ignored;
      }
      var room := found.value;
      ghost var before := StateOf(room);
      DepartedSpec(before, b.playerId);
      var wasCurrentPlayer := room.gameStarted && room.gameState.value.currentPlayerId == Some(b.playerId);
      var removed := registry.RemovePlayerFromSocketRoom(b.roomId, b.playerId);
      assert StateOf(room) == Departed(before, b.playerId);
      FinishDeparture(room, b.playerId, wasCurrentPlayer);
      return Done;
    }
  }
}
