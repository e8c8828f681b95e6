/**
 * The state the server keeps per room (roomManager.js:2, gameLogic.js:67-77): players, the game
 * state with the bank's herd, the turn flags and the pending peer trades.
 */
module Model {
  import opened Wrappers
  import opened Rules
  import opened Trading

  type PlayerId = string
  type RoomId = string
  type SocketId = string
  type TradeId = string

  /** A room never holds more players than this (roomManager.js:3). */
  const MaxPlayersPerRoom: int := 4

  /** A seat in a room; `socketId` is `None` until a socket binds to it. */
  datatype Player = Player(id: PlayerId, nick: string, socketId: Option<SocketId>, animals: Herd, isReady: bool)

  datatype TurnState = TurnState(hasExchanged: bool, hasRolled: bool)

  /** The flags every player's turn starts with. */
  const FreshTurn: TurnState := TurnState(false, false)

  /** A proposed peer trade awaiting its target's answer (server.js:244-254). */
  datatype Trade = Trade(
    tradeId: TradeId,
    proposingPlayerId: PlayerId,
    proposingPlayerNick: string,
    targetPlayerId: PlayerId,
    targetPlayerNick: string,
    offeredItems: Option<Herd>,
    requestedItems: Option<Herd>,
    timestamp: int)

  datatype DiceResult = DiceResult(die1: Kind, die2: Kind)

  datatype GameState = GameState(
    mainHerd: Herd,
    currentPlayerId: Option<PlayerId>,
    diceResult: Option<DiceResult>,
    playerTurnState: map<PlayerId, TurnState>,
    pendingTrades: map<TradeId, Trade>)

  /** `players.findIndex(p => p.id === id)`. */
  function FindIndex(ps: seq<Player>, id: PlayerId): (i: int)
    ensures -1 <= i < |ps|
    ensures i >= 0 ==> ps[i].id == id && forall j :: 0 <= j < i ==> ps[j].id != id
    ensures i == -1 <==> forall j :: 0 <= j < |ps| ==> ps[j].id != id
  {
    if ps == [] then -1
    else if ps[0].id == id then 0
    else
      var i := FindIndex(ps[1..], id);
      if i == -1 then -1 else i + 1
  }

  predicate HasPlayer(ps: seq<Player>, id: PlayerId)
  {
    exists i :: 0 <= i < |ps| && ps[i].id == id
  }

  predicate UniqueIds(ps: seq<Player>)
  {
    forall i, j :: 0 <= i < |ps| && 0 <= j < |ps| && ps[i].id == ps[j].id ==> i == j
  }

  /** With distinct ids the index found is the only seat holding the id. */
  lemma FindIndexUnique(ps: seq<Player>, id: PlayerId, i: int)
    requires UniqueIds(ps) && 0 <= i < |ps| && ps[i].id == id
    ensures FindIndex(ps, id) == i
  {
  }

  /** The players' animals never hold a negative count, nor does the bank. */
  predicate NoNegativeCounts(players: seq<Player>, gs: Option<GameState>)
  {
    (forall i :: 0 <= i < |players| ==> NonNegative(players[i].animals)) &&
    (gs.Some? ==> NonNegative(gs.value.mainHerd))
  }

  /** Every stored trade is filed under its id, is between two different players, has offered items
      and names only positive quantities (server.js:224-254). */
  predicate TradesWellFormed(gs: GameState)
  {
    forall t :: t in gs.pendingTrades ==>
      gs.pendingTrades[t].tradeId == t &&
      gs.pendingTrades[t].proposingPlayerId != gs.pendingTrades[t].targetPlayerId &&
      gs.pendingTrades[t].offeredItems.Some? &&
      AllPositive(gs.pendingTrades[t].offeredItems) &&
      AllPositive(gs.pendingTrades[t].requestedItems)
  }

  /** The number of `k` the players of `ps` hold together. */
  function PlayersCount(ps: seq<Player>, k: Kind): int
  {
    if ps == [] then 0 else PlayersCount(ps[..|ps| - 1], k) + Count(ps[|ps| - 1].animals, k)
  }

  /** Replacing one player's animals changes the players' total by the difference. */
  lemma {:induction false} PlayersCountUpdate(ps: seq<Player>, i: int, a: Herd, k: Kind)
    requires 0 <= i < |ps|
    ensures PlayersCount(ps[i := ps[i].(animals := a)], k) ==
            PlayersCount(ps, k) - Count(ps[i].animals, k) + Count(a, k)
    decreases |ps|
  {
    var ps' := ps[i := ps[i].(animals := a)];
    if i < |ps| - 1 {
      assert ps'[..|ps'| - 1] == ps[..|ps| - 1][i := ps[i].(animals := a)];
      PlayersCountUpdate(ps[..|ps| - 1], i, a, k);
    } else {
      assert ps'[..|ps'| - 1] == ps[..|ps| - 1];
    }
  }

  /** A change of anything but the animals leaves the players' total alone. */
  lemma {:induction false} PlayersCountSameAnimals(ps: seq<Player>, ps': seq<Player>, k: Kind)
    requires |ps| == |ps'| && forall i :: 0 <= i < |ps| ==> ps'[i].animals == ps[i].animals
    ensures PlayersCount(ps', k) == PlayersCount(ps, k)
    decreases |ps|
  {
    if ps != [] {
      PlayersCountSameAnimals(ps[..|ps| - 1], ps'[..|ps'| - 1], k);
    }
  }

  /** The room invariant, on the room's field values: capacity, distinct ids, no negative counts,
      well-formed trades, and a started game with a turn-state entry for every player. */
  predicate ValidRoom(maxPlayers: int, players: seq<Player>, gameStarted: bool, gameState: Option<GameState>)
  {
    maxPlayers == MaxPlayersPerRoom &&
    |players| <= maxPlayers &&
    UniqueIds(players) &&
    NoNegativeCounts(players, gameState) &&
    (gameState.Some? ==> TradesWellFormed(gameState.value)) &&
    (gameStarted ==> gameState.Some? &&
                     forall i :: 0 <= i < |players| ==> players[i].id in gameState.value.playerTurnState)
  }

  /** What the players of a room hold of `k` together with what its bank holds. */
  function RoomTotal(players: seq<Player>, gameState: Option<GameState>, k: Kind): int
  {
    PlayersCount(players, k) + (if gameState.Some? then Count(gameState.value.mainHerd, k) else 0)
  }

  /** A room (roomManager.js:15-23); its list of players and its game state change in place. */
  class Room {
    const id: RoomId
    const name: string
    const maxPlayers: int
    const hostId: PlayerId
    var players: seq<Player>
    var gameStarted: bool
    var gameState: Option<GameState>

    /** A fresh room: no players, not started, no game state (roomManager.js:15-23). */
    constructor (id: RoomId, name: string, hostId: PlayerId)
      ensures this.id == id && this.name == name && this.hostId == hostId
      ensures maxPlayers == MaxPlayersPerRoom
      ensures players == [] && !gameStarted && gameState.None?
      ensures Valid()
    {
      this.id := id;
      this.name := name;
      this.maxPlayers := MaxPlayersPerRoom;
      this.hostId := hostId;
      this.players := [];
      this.gameStarted := false;
      this.gameState := None;
    }

    /** What every operation keeps (see `ValidRoom`). */
    predicate Valid()
      reads this
    {
      ValidRoom(maxPlayers, players, gameStarted, gameState)
    }

    /** What the players hold of `k` together with what the bank holds. */
    function Total(k: Kind): int
      reads this
    {
      RoomTotal(players, gameState, k)
    }
  }
}
