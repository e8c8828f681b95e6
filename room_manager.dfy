/**
 * The in-memory room registry of roomManager.js: a dictionary of rooms by id, each with an
 * ordered list of players. The effect of each operation on a room's player list is a function
 * on values; the `Registry` methods apply it in place and are proved against it.
 */
module RoomManager {
  import opened Wrappers
  import opened Rules
  import opened Model

  /** Why a registry operation throws. */
  datatype RoomError = DuplicateName | RoomNotFound | GameInProgress | RoomFull | CannotToggleReady | PlayerNotInRoom

  /** A player as `joinRoomAPI` and `addPlayerToSocketRoom` create one (roomManager.js:38-44, 61-66). */
  function NewPlayer(id: PlayerId, nick: string): Player
  {
    Player(id, nick, None, EmptyAnimals, false)
  }

  /** JavaScript's `s.substring(start, end)` for `start <= end`: both ends clamped to the length. */
  function Substring(s: string, start: nat, end: nat): (r: string)
    requires start <= end
    ensures |r| <= end - start
    ensures end <= |s| ==> r == s[start..end]
  {
    var e := if end <= |s| then end else |s|;
    var b := if start <= e then start else e;
    s[b..e]
  }

  /** The name a room gets when none is given (roomManager.js:17). */
  function DefaultRoomName(roomId: RoomId): string
  {
    "Pokój " + Substring(roomId, 5, 9)
  }

  // ---------------------------------------------------------------------------------------------
  // The effect of each operation on a room's player list

  /** `joinRoomAPI` on a room that exists (roomManager.js:33-48): the started and capacity checks
      apply to newcomers only; a member only gets the new nick, a newcomer is appended. */
  function Joined(ps: seq<Player>, maxPlayers: int, started: bool, playerId: PlayerId, nick: string)
    : Result<seq<Player>, RoomError>
  {
    var i := FindIndex(ps, playerId);
    if started && i == -1 then Failure(GameInProgress)
    else if |ps| >= maxPlayers && i == -1 then Failure(RoomFull)
    else if i == -1 then Success(ps + [NewPlayer(playerId, nick)])
    else Success(ps[i := ps[i].(nick := nick)])
  }

  /** `addPlayerToSocketRoom` on a room that exists (roomManager.js:57-69): a newcomer is refused
      when the room is full and then when the game has started, and is otherwise appended; the
      player then gets the socket. */
  function Bound(ps: seq<Player>, maxPlayers: int, started: bool, playerId: PlayerId, nick: string, socketId: SocketId)
    : Result<seq<Player>, RoomError>
  {
    var i := FindIndex(ps, playerId);
    if i == -1 then
      if |ps| >= maxPlayers then Failure(RoomFull)
      else if started then Failure(GameInProgress)
      else Success(ps + [NewPlayer(playerId, nick).(socketId := Some(socketId))])
    else Success(ps[i := ps[i].(socketId := Some(socketId))])
  }

  /** `players.splice(i, 1)`. */
  function Without(ps: seq<Player>, i: int): seq<Player>
    requires 0 <= i < |ps|
  {
    ps[..i] + ps[i + 1..]
  }

  /** `player.isReady = !player.isReady` for player `i`. */
  function ToggledReady(ps: seq<Player>, i: int): seq<Player>
    requires 0 <= i < |ps|
  {
    ps[i := ps[i].(isReady := !ps[i].isReady)]
  }

  // ---------------------------------------------------------------------------------------------
  // Properties of the player-list effects

  /** `joinRoomAPI` refuses exactly a newcomer to a started or full room; afterwards the player is
      a member, a member keeps everything but the nick, and a newcomer is appended with no animals,
      no socket and not ready. */
  lemma JoinedSpec(ps: seq<Player>, maxPlayers: int, started: bool, playerId: PlayerId, nick: string)
    requires UniqueIds(ps)
    ensures var r := Joined(ps, maxPlayers, started, playerId, nick);
            (r.Failure? <==> !HasPlayer(ps, playerId) && (started || |ps| >= maxPlayers)) &&
            (r.Failure? && started && !HasPlayer(ps, playerId) ==> r.error == GameInProgress) &&
            (r.Success? ==> HasPlayer(r.value, playerId) && UniqueIds(r.value)) &&
            (r.Success? && HasPlayer(ps, playerId) ==>
               |r.value| == |ps| &&
               forall j :: 0 <= j < |ps| ==>
                 r.value[j] == if ps[j].id == playerId then ps[j].(nick := nick) else ps[j]) &&
            (r.Success? && !HasPlayer(ps, playerId) ==>
               |ps| < maxPlayers && r.value == ps + [Player(playerId, nick, None, EmptyAnimals, false)])
  {
    var i := FindIndex(ps, playerId);
    var r := Joined(ps, maxPlayers, started, playerId, nick);
    if i != -1 {
      FindIndexUnique(ps, playerId, i);
      assert HasPlayer(r.value, playerId) by { assert r.value[i].id == playerId; }
    } else if r.Success? {
      assert r.value[|ps|].id == playerId;
    }
  }

  /** Joining a second time with the same nick changes nothing more. */
  lemma JoinedIdempotent(ps: seq<Player>, maxPlayers: int, started: bool, playerId: PlayerId, nick: string)
    requires UniqueIds(ps) && Joined(ps, maxPlayers, started, playerId, nick).Success?
    ensures var once := Joined(ps, maxPlayers, started, playerId, nick).value;
            Joined(once, maxPlayers, started, playerId, nick) == Success(once)
  {
    var once := Joined(ps, maxPlayers, started, playerId, nick).value;
    JoinedSpec(ps, maxPlayers, started, playerId, nick);
    var i :| 0 <= i < |once| && once[i].id == playerId;
    FindIndexUnique(once, playerId, i);
    assert once[i].nick == nick by {
      if FindIndex(ps, playerId) == -1 {
        FindIndexUnique(once, playerId, |ps|);
      } else {
        FindIndexUnique(ps, playerId, FindIndex(ps, playerId));
      }
    }
    assert once[i := once[i].(nick := nick)] == once;
  }

  /** A newcomer who joins and is removed again leaves the list as it was. */
  lemma JoinThenRemove(ps: seq<Player>, maxPlayers: int, started: bool, playerId: PlayerId, nick: string)
    requires UniqueIds(ps) && !HasPlayer(ps, playerId)
    requires Joined(ps, maxPlayers, started, playerId, nick).Success?
    ensures var once := Joined(ps, maxPlayers, started, playerId, nick).value;
            FindIndex(once, playerId) == |ps| && Without(once, FindIndex(once, playerId)) == ps
  {
    var once := Joined(ps, maxPlayers, started, playerId, nick).value;
    JoinedSpec(ps, maxPlayers, started, playerId, nick);
    FindIndexUnique(once, playerId, |ps|);
    assert once[..|ps|] == ps;
  }

  /** When `addPlayerToSocketRoom` succeeds; afterwards the player is in the list. */
  lemma BoundSucceeds(ps: seq<Player>, maxPlayers: int, started: bool, playerId: PlayerId, nick: string, socketId: SocketId)
    ensures var r := Bound(ps, maxPlayers, started, playerId, nick, socketId);
            (r.Failure? <==> !HasPlayer(ps, playerId) && (|ps| >= maxPlayers || started)) &&
            (r.Success? ==> exists j :: 0 <= j < |r.value| && r.value[j].id == playerId)
  {
    var i := FindIndex(ps, playerId);
    var r := Bound(ps, maxPlayers, started, playerId, nick, socketId);
    if i != -1 {
      assert r.value[i].id == playerId;
    } else if r.Success? {
      assert r.value[|ps|].id == playerId;
    }
  }

  /** `addPlayerToSocketRoom` refuses exactly a newcomer to a full room or a started game;
      afterwards the player is a member bound to the socket and nobody else has changed. */
  lemma BoundSpec(ps: seq<Player>, maxPlayers: int, started: bool, playerId: PlayerId, nick: string, socketId: SocketId)
    requires UniqueIds(ps)
    ensures var r := Bound(ps, maxPlayers, started, playerId, nick, socketId);
            (r.Failure? <==> !HasPlayer(ps, playerId) && (|ps| >= maxPlayers || started)) &&
            (r.Failure? && |ps| >= maxPlayers ==> r.error == RoomFull) &&
            (r.Success? && HasPlayer(ps, playerId) ==>
               |r.value| == |ps| &&
               forall j :: 0 <= j < |ps| ==>
                 r.value[j] == if ps[j].id == playerId then ps[j].(socketId := Some(socketId)) else ps[j]) &&
            (r.Success? && !HasPlayer(ps, playerId) ==>
               |ps| < maxPlayers && !started &&
               r.value == ps + [Player(playerId, nick, Some(socketId), EmptyAnimals, false)]) &&
            (r.Success? ==>
               UniqueIds(r.value) &&
               |r.value| == |ps| + (if HasPlayer(ps, playerId) then 0 else 1) &&
               (forall j :: 0 <= j < |ps| && ps[j].id != playerId ==> r.value[j] == ps[j]) &&
               exists j :: 0 <= j < |r.value| && r.value[j].id == playerId && r.value[j].socketId == Some(socketId))
  {
    var i := FindIndex(ps, playerId);
    var r := Bound(ps, maxPlayers, started, playerId, nick, socketId);
    if i != -1 {
      FindIndexUnique(ps, playerId, i);
      assert r.value[i].id == playerId;
    } else if r.Success? {
      assert r.value[|ps|].id == playerId;
    }
  }

  /** `splice` removes exactly the player at `i` and keeps the others in order. */
  lemma WithoutSpec(ps: seq<Player>, i: int)
    requires UniqueIds(ps) && 0 <= i < |ps|
    ensures var w := Without(ps, i);
            |w| == |ps| - 1 && UniqueIds(w) && !HasPlayer(w, ps[i].id) &&
            (forall j :: 0 <= j < i ==> w[j] == ps[j]) &&
            (forall j :: i <= j < |w| ==> w[j] == ps[j + 1])
  {
    var w := Without(ps, i);
    forall a, b | 0 <= a < |w| && 0 <= b < |w| && w[a].id == w[b].id ensures a == b {
      var a' := if a < i then a else a + 1;
      var b' := if b < i then b else b + 1;
      assert ps[a'].id == ps[b'].id;
    }
    forall j | 0 <= j < |w| ensures w[j].id != ps[i].id {
      var j' := if j < i then j else j + 1;
      assert w[j] == ps[j'];
    }
  }

  lemma {:induction false} PlayersCountConcat(a: seq<Player>, b: seq<Player>, k: Kind)
    ensures PlayersCount(a + b, k) == PlayersCount(a, k) + PlayersCount(b, k)
    decreases |b|
  {
    if b == [] {
      assert a + b == a;
    } else {
      PlayersCountConcat(a, b[..|b| - 1], k);
      assert (a + b)[..|a + b| - 1] == a + b[..|b| - 1];
    }
  }

  /** A player who leaves takes their animals out of the players' total. */
  lemma WithoutCount(ps: seq<Player>, i: int, k: Kind)
    requires 0 <= i < |ps|
    ensures PlayersCount(Without(ps, i), k) == PlayersCount(ps, k) - Count(ps[i].animals, k)
  {
    PlayersCountConcat(ps[..i], ps[i + 1..], k);
    PlayersCountConcat(ps[..i], [ps[i]] + ps[i + 1..], k);
    PlayersCountConcat([ps[i]], ps[i + 1..], k);
    assert ps == ps[..i] + ([ps[i]] + ps[i + 1..]);
    assert [ps[i]][..0] == [];
  }

  /** Toggling readiness twice restores the list. */
  lemma ToggleTwice(ps: seq<Player>, i: int)
    requires 0 <= i < |ps|
    ensures ToggledReady(ToggledReady(ps, i), i) == ps
    ensures ToggledReady(ps, i)[i].isReady == !ps[i].isReady
  {
    assert ToggledReady(ToggledReady(ps, i), i)[i] == ps[i];
  }

  // ---------------------------------------------------------------------------------------------
  // The room invariant under each effect

  lemma JoinedKeepsValid(ps: seq<Player>, started: bool, gs: Option<GameState>, playerId: PlayerId, nick: string)
    requires ValidRoom(MaxPlayersPerRoom, ps, started, gs)
    requires Joined(ps, MaxPlayersPerRoom, started, playerId, nick).Success?
    ensures ValidRoom(MaxPlayersPerRoom, Joined(ps, MaxPlayersPerRoom, started, playerId, nick).value, started, gs)
  {
    JoinedSpec(ps, MaxPlayersPerRoom, started, playerId, nick);
    var r := Joined(ps, MaxPlayersPerRoom, started, playerId, nick).value;
    forall j | 0 <= j < |r| ensures NonNegative(r[j].animals) {
      if j < |ps| {
        assert r[j].animals == ps[j].animals;
      }
    }
    if started {
      forall j | 0 <= j < |r| ensures r[j].id in gs.value.playerTurnState {
        assert r[j].id == ps[j].id;
      }
    }
  }

  lemma BoundKeepsValid(ps: seq<Player>, started: bool, gs: Option<GameState>, playerId: PlayerId, nick: string, socketId: SocketId)
    requires ValidRoom(MaxPlayersPerRoom, ps, started, gs)
    requires Bound(ps, MaxPlayersPerRoom, started, playerId, nick, socketId).Success?
    ensures ValidRoom(MaxPlayersPerRoom, Bound(ps, MaxPlayersPerRoom, started, playerId, nick, socketId).value, started, gs)
  {
    BoundSpec(ps, MaxPlayersPerRoom, started, playerId, nick, socketId);
    var r := Bound(ps, MaxPlayersPerRoom, started, playerId, nick, socketId).value;
    forall j | 0 <= j < |r| ensures NonNegative(r[j].animals) {
      if j < |ps| {
        assert r[j].animals == ps[j].animals;
      }
    }
    if started {
      forall j | 0 <= j < |r| ensures r[j].id in gs.value.playerTurnState {
        assert r[j].id == ps[j].id;
      }
    }
  }

  lemma WithoutKeepsValid(ps: seq<Player>, started: bool, gs: Option<GameState>, i: int)
    requires ValidRoom(MaxPlayersPerRoom, ps, started, gs) && 0 <= i < |ps|
    ensures ValidRoom(MaxPlayersPerRoom, Without(ps, i), started, gs)
  {
    WithoutSpec(ps, i);
  }

  lemma ToggledKeepsValid(ps: seq<Player>, started: bool, gs: Option<GameState>, i: int)
    requires ValidRoom(MaxPlayersPerRoom, ps, started, gs) && 0 <= i < |ps|
    ensures ValidRoom(MaxPlayersPerRoom, ToggledReady(ps, i), started, gs)
  {
    var r := ToggledReady(ps, i);
    assert forall j :: 0 <= j < |r| ==> r[j].id == ps[j].id && r[j].animals == ps[j].animals;
  }

  // ---------------------------------------------------------------------------------------------
  // The registry

  /** The module-level `rooms` dictionary (roomManager.js:2). */
  class Registry {
    var rooms: map<RoomId, Room>

    constructor ()
      ensures rooms == map[] && Valid()
    {
      rooms := map[];
    }

    /** Every room is stored under its own id and keeps the room invariant. */
    predicate Valid()
      reads this, rooms.Values
    {
      forall id :: id in rooms ==> rooms[id].id == id && rooms[id].Valid()
    }

    /** `getRoom` (roomManager.js:92): the room stored under `roomId`, if any. */
    function GetRoom(roomId: RoomId): (r: Option<Room>)
      reads this
      ensures r.Some? <==> roomId in rooms
      ensures r.Some? ==> r.value == rooms[roomId]
    {
      if roomId in rooms then Some(rooms[roomId]) else None
    }

    /** `isPlayerInRoom` (roomManager.js:94-97): the room exists and has a player with the id. */
    predicate IsPlayerInRoom(roomId: RoomId, playerId: PlayerId): (present: bool)
      reads this, rooms.Values
      ensures present <==> GetRoom(roomId).Some? && FindIndex(GetRoom(roomId).value.players, playerId) != -1
    {
      roomId in rooms && exists i :: 0 <= i < |rooms[roomId].players| && rooms[roomId].players[i].id == playerId
    }

    /** `createRoom` with a generated `roomId`: a name already used by a room is refused; otherwise
        a fresh empty room, named `name` or by default after the id, is stored under `roomId`. */
    method CreateRoom(name: string, creatorPlayerId: PlayerId, roomId: RoomId) returns (r: Result<Room, RoomError>)
      requires Valid()
      modifies this
      ensures (exists id :: id in old(rooms) && old(rooms)[id].name == name) <==> r.Failure?
      ensures r.Failure? ==> r.error == DuplicateName && rooms == old(rooms)
      ensures r.Success? ==>
        fresh(r.value) && rooms == old(rooms)[roomId := r.value] &&
        r.value.id == roomId && r.value.hostId == creatorPlayerId &&
        r.value.name == (if name == "" then DefaultRoomName(roomId) else name) &&
        r.value.maxPlayers == MaxPlayersPerRoom &&
        r.value.players == [] && !r.value.gameStarted && r.value.gameState.None?
      ensures Valid()
    {
      if exists id | id in rooms :: rooms[id].name == name {
        return Failure(DuplicateName);
      }
      var newRoom := new Room(roomId, if name == "" then DefaultRoomName(roomId) else name, creatorPlayerId);
      rooms := rooms[roomId := newRoom];
      return Success(newRoom);
    }

    /** `joinRoomAPI`: a missing room is refused; otherwise the room's players become what `Joined`
        gives, or stay as they were when it refuses. */
    method JoinRoomAPI(roomId: RoomId, playerId: PlayerId, nick: string) returns (r: Result<Room, RoomError>)
      requires Valid()
      modifies rooms.Values
      ensures roomId !in rooms ==> r == Failure(RoomNotFound)
      ensures roomId in rooms ==>
        var room := rooms[roomId];
        var j := Joined(old(room.players), room.maxPlayers, room.gameStarted, playerId, nick);
        (j.Failure? ==> r == Failure(j.error) && room.players == old(room.players)) &&
        (j.Success? ==> r == Success(room) && room.players == j.value && IsPlayerInRoom(roomId, playerId))
      ensures forall id :: id in rooms ==> rooms[id].gameStarted == old(rooms[id].gameStarted) &&
                                           rooms[id].gameState == old(rooms[id].gameState)
      ensures r.Failure? ==> forall id :: id in rooms ==> unchanged(rooms[id])
      ensures forall id :: id in rooms && id != roomId ==> unchanged(rooms[id])
      ensures Valid()
    {
      if roomId !in rooms {
        return Failure(RoomNotFound);
      }
      var room := rooms[roomId];
      var j := Joined(room.players, room.maxPlayers, room.gameStarted, playerId, nick);
      if j.Failure? {
        return Failure(j.error);
      }
      JoinedKeepsValid(room.players, room.gameStarted, room.gameState, playerId, nick);
      JoinedSpec(room.players, room.maxPlayers, room.gameStarted, playerId, nick);
      room.players := j.value;
      return Success(room);
    }

    /** `addPlayerToSocketRoom`: a missing room is refused; otherwise the room's players become what
        `Bound` gives, or stay as they were when it refuses. */
    method AddPlayerToSocketRoom(socketId: SocketId, roomId: RoomId, playerId: PlayerId, nick: string)
      returns (r: Result<Room, RoomError>)
      requires Valid()
      modifies rooms.Values
      ensures roomId !in rooms ==> r == Failure(RoomNotFound)
      ensures roomId in rooms ==>
        var room := rooms[roomId];
        var b := Bound(old(room.players), room.maxPlayers, room.gameStarted, playerId, nick, socketId);
        (b.Failure? ==> r == Failure(b.error) && room.players == old(room.players)) &&
        (b.Success? ==> r == Success(room) && room.players == b.value && IsPlayerInRoom(roomId, playerId))
      ensures forall id :: id in rooms ==> rooms[id].gameStarted == old(rooms[id].gameStarted) &&
                                           rooms[id].gameState == old(rooms[id].gameState)
      ensures r.Failure? ==> forall id :: id in rooms ==> unchanged(rooms[id])
      ensures forall id :: id in rooms && id != roomId ==> unchanged(rooms[id])
      ensures Valid()
    {
      if roomId !in rooms {
        return Failure(RoomNotFound);
      }
      var room := rooms[roomId];
      var b := Bound(room.players, room.maxPlayers, room.gameStarted, playerId, nick, socketId);
      if b.Failure? {
        return Failure(b.error);
      }
      BoundKeepsValid(room.players, room.gameStarted, room.gameState, playerId, nick, socketId);
      BoundSpec(room.players, room.maxPlayers, room.gameStarted, playerId, nick, socketId);
      room.players := b.value;
      return Success(room);
    }

    /** `removePlayerFromSocketRoom`: without the room or the player nothing changes and `None` comes
        back; otherwise the player is spliced out and returned, and a room left empty is deleted
        from the registry. */
    method RemovePlayerFromSocketRoom(roomId: RoomId, playerId: PlayerId) returns (removed: Option<Player>)
      requires Valid()
      modifies this, rooms.Values
      ensures removed.None? <==> !(roomId in old(rooms) && HasPlayer(old(rooms[roomId].players), playerId))
      ensures removed.None? ==> rooms == old(rooms) && forall id :: id in rooms ==> unchanged(rooms[id])
      ensures removed.Some? ==>
        var room := old(rooms[roomId]);
        var i := FindIndex(old(room.players), playerId);
        removed.value == old(room.players)[i] &&
        room.players == Without(old(room.players), i) &&
        rooms == (if room.players == [] then old(rooms) - {roomId} else old(rooms)) &&
        room.gameStarted == old(room.gameStarted) && room.gameState == old(room.gameState)
      ensures forall id :: id in old(rooms) && id != roomId ==> unchanged(old(rooms)[id])
      ensures forall id :: id in old(rooms) ==> old(rooms)[id].Valid()
      ensures Valid()
    {
      if roomId !in rooms {
        return None;
      }
      var room := rooms[roomId];
      var playerIndex := FindIndex(room.players, playerId);
      if playerIndex == -1 {
        return None;
      }
      var removedPlayer := room.players[playerIndex];
      WithoutKeepsValid(room.players, room.gameStarted, room.gameState, playerIndex);
      room.players := Without(room.players, playerIndex);
      if |room.players| == 0 {
        rooms := rooms - {roomId};
      }
      return Some(removedPlayer);
    }

    /** `setPlayerReady`: refused for a missing or started room and for an absent player; otherwise
        the player's readiness is toggled and nothing else changes. */
    method SetPlayerReady(roomId: RoomId, playerId: PlayerId) returns (r: Result<Room, RoomError>)
      requires Valid()
      modifies rooms.Values
      ensures roomId !in rooms || rooms[roomId].gameStarted ==> r == Failure(CannotToggleReady)
      ensures roomId in rooms && !rooms[roomId].gameStarted && !HasPlayer(old(rooms[roomId].players), playerId) ==>
                r == Failure(PlayerNotInRoom)
      ensures r.Success? <==> roomId in rooms && !rooms[roomId].gameStarted && HasPlayer(old(rooms[roomId].players), playerId)
      ensures r.Failure? ==> forall id :: id in rooms ==> unchanged(rooms[id])
      ensures r.Success? ==>
        roomId in rooms && r.value == rooms[roomId] &&
        rooms[roomId].players == ToggledReady(old(rooms[roomId].players), FindIndex(old(rooms[roomId].players), playerId))
      ensures forall id :: id in rooms && id != roomId ==> unchanged(rooms[id])
      ensures forall id :: id in rooms ==> rooms[id].gameStarted == old(rooms[id].gameStarted) &&
                                           rooms[id].gameState == old(rooms[id].gameState)
      ensures Valid()
    {
      if roomId !in rooms || rooms[roomId].gameStarted {
        return Failure(CannotToggleReady);
      }
      var room := rooms[roomId];
      var i := FindIndex(room.players, playerId);
      if i == -1 {
        return Failure(PlayerNotInRoom);
      }
      ToggledKeepsValid(room.players, room.gameStarted, room.gameState, i);
      room.players := ToggledReady(room.players, i);
      return Success(room);
    }
  }
}
