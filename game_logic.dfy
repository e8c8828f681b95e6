/**
 * The game handlers of gameLogic.js that change a room in place: starting the game, a dice
 * roll, an exchange with the bank and handing on the turn. Each is proved against the
 * specification functions of Dice, Bank and Turns.
 */
module GameLogic {
  import opened Wrappers
  import opened Rules
  import opened Dice
  import opened Bank
  import opened Model
  import opened Turns

  // ---------------------------------------------------------------------------------------------
  // Starting the game (gameLogic.js:64-88)

  /** A player as the start of the game leaves them: holding exactly one rabbit. */
  function Seated(p: Player): Player
  {
    p.(animals := p.animals[Rabbit := 1])
  }

  function SeatedAll(ps: seq<Player>): (r: seq<Player>)
    ensures |r| == |ps| && forall i :: 0 <= i < |ps| ==> r[i] == Seated(ps[i])
  {
    seq(|ps|, i requires 0 <= i < |ps| => Seated(ps[i]))
  }

  function PlayerIds(ps: seq<Player>): set<PlayerId>
  {
    set i | 0 <= i < |ps| :: ps[i].id
  }

  /** Fresh turn flags for every player. */
  function FreshTurns(ps: seq<Player>): map<PlayerId, TurnState>
  {
    map id | id in PlayerIds(ps) :: FreshTurn
  }

  /** The game state a start creates for `ps` (at most 60 players, so every one gets a rabbit). */
  function StartState(ps: seq<Player>): GameState
    requires |ps| >= 1
  {
    GameState(InitialMainHerd[Rabbit := 60 - |ps|], Some(ps[0].id), None, FreshTurns(ps), map[])
  }

  const StartFailed: string := "Nie można rozpocząć gry: za mało graczy."

  /** `initializeGame`: refuses fewer than two players; otherwise the game starts with a full bank,
      the first player to move, fresh turn flags and no trades, and each player in turn takes one
      rabbit from the bank while the bank has any. */
  method InitializeGame(room: Room) returns (r: Outcome<string>)
    requires room.Valid()
    modifies room
    ensures r == (if |old(room.players)| < 2 then Fail(StartFailed) else Pass)
    ensures r.Fail? ==> unchanged(room)
    ensures r.Pass? ==> room.gameStarted && room.players == SeatedAll(old(room.players)) &&
                        room.gameState == Some(StartState(old(room.players)))
    ensures room.Valid()
  {
    if |room.players| < 2 {
      return Fail(StartFailed);
    }
    room.gameStarted := true;
    var bank := InitialMainHerd;
    var ps := room.players;
    var i := 0;
    while i < |ps|
      invariant 0 <= i <= |ps| && |ps| == |room.players|
      invariant bank == InitialMainHerd[Rabbit := 60 - i]
      invariant forall j :: 0 <= j < i ==> ps[j] == Seated(room.players[j])
      invariant forall j :: i <= j < |ps| ==> ps[j] == room.players[j]
    {
      if Count(bank, Rabbit) > 0 {
        ps := ps[i := Seated(ps[i])];
        bank := bank[Rabbit := Count(bank, Rabbit) - 1];
      }
      i := i + 1;
    }
    var before := room.players;
    room.gameState := Some(GameState(bank, Some(before[0].id), None, FreshTurns(before), map[]));
    room.players := ps;
    assert room.players == SeatedAll(before);
    StartKeepsValid(before);
    return Pass;
  }

  lemma StartKeepsValid(ps: seq<Player>)
    requires 2 <= |ps| <= MaxPlayersPerRoom && UniqueIds(ps) && NoNegativeCounts(ps, None)
    ensures var s := SeatedAll(ps);
            UniqueIds(s) && NoNegativeCounts(s, Some(StartState(ps))) &&
            TradesWellFormed(StartState(ps)) &&
            forall i :: 0 <= i < |s| ==> s[i].id in StartState(ps).playerTurnState
  {
    var s := SeatedAll(ps);
    forall i | 0 <= i < |s| ensures NonNegative(s[i].animals) {
      assert NonNegative(ps[i].animals);
      forall k ensures Count(s[i].animals, k) >= 0 {
        assert Count(ps[i].animals, k) >= 0;
      }
    }
    forall i | 0 <= i < |s| ensures s[i].id in FreshTurns(ps) {
      assert ps[i].id in PlayerIds(ps);
    }
  }

  /** For players who join with no animals, the start neither creates nor destroys an animal:
      the rabbits the players receive are the ones the bank gives up. */
  lemma {:induction false} StartConserves(ps: seq<Player>, k: Kind)
    requires 1 <= |ps| <= 60
    requires forall i :: 0 <= i < |ps| ==> ps[i].animals == EmptyAnimals
    ensures PlayersCount(SeatedAll(ps), k) + Count(StartState(ps).mainHerd, k) == Count(InitialMainHerd, k)
  {
    SeatedCount(ps, k);
  }

  /** The start sets only the rabbit count, so a player is a winner right after it exactly when they
      already held a sheep, a pig, a cow and a horse (possible only after a stopped game, whose
      animals stay); players who join with no animals are never winners at the start. */
  lemma StartWinners(ps: seq<Player>)
    ensures forall i :: 0 <= i < |ps| ==>
              (CheckWinCondition(SeatedAll(ps)[i].animals) <==>
                 Count(ps[i].animals, Sheep) >= 1 && Count(ps[i].animals, Pig) >= 1 &&
                 Count(ps[i].animals, Cow) >= 1 && Count(ps[i].animals, Horse) >= 1)
    ensures (forall i :: 0 <= i < |ps| ==> ps[i].animals == EmptyAnimals) ==>
              forall i :: 0 <= i < |ps| ==> !CheckWinCondition(SeatedAll(ps)[i].animals)
  {
    forall i | 0 <= i < |ps|
      ensures forall k :: k != Rabbit ==> Count(SeatedAll(ps)[i].animals, k) == Count(ps[i].animals, k)
      ensures Count(SeatedAll(ps)[i].animals, Rabbit) == 1
    {
      assert SeatedAll(ps)[i] == Seated(ps[i]);
    }
  }

  lemma {:induction false} SeatedCount(ps: seq<Player>, k: Kind)
    requires forall i :: 0 <= i < |ps| ==> ps[i].animals == EmptyAnimals
    ensures PlayersCount(SeatedAll(ps), k) == if k == Rabbit then |ps| else 0
    decreases |ps|
  {
    if ps != [] {
      var s := SeatedAll(ps);
      assert s[..|s| - 1] == SeatedAll(ps[..|ps| - 1]);
      SeatedCount(ps[..|ps| - 1], k);
    }
  }

  // ---------------------------------------------------------------------------------------------
  // Handing on the turn (gameLogic.js:309-327)

  /** `determineNextPlayer`: names the player `Turns.NextPlayer` names and, when `current` was
      found among the connected players and the named player has turn flags, resets them. */
  method DetermineNextPlayer(room: Room, current: PlayerId, skipCurrent: bool) returns (next: Option<PlayerId>)
    requires room.Valid()
    modifies room
    ensures next == NextPlayer(room.players, current, skipCurrent)
    ensures room.players == old(room.players) && room.gameStarted == old(room.gameStarted)
    ensures room.gameState == (
      if next.Some? && ResetsTurn(room.players, current) && old(room.gameState).Some? &&
         next.value in old(room.gameState).value.playerTurnState
      then Some(old(room.gameState).value.(playerTurnState :=
                  old(room.gameState).value.playerTurnState[next.value := FreshTurn]))
      else old(room.gameState))
    ensures room.Valid()
  {
    var act := Active(room.players);
    if |act| == 0 {
      return None;
    }
    var i := FindIndex(act, current);
    if i == -1 {
      return Some(act[0].id);
    }
    var n := if skipCurrent then i else (i + 1) % |act|;
    var id := act[n].id;
    if room.gameState.Some? && id in room.gameState.value.playerTurnState {
      var gs := room.gameState.value;
      room.gameState := Some(gs.(playerTurnState := gs.playerTurnState[id := FreshTurn]));
    }
    return Some(id);
  }

  // ---------------------------------------------------------------------------------------------
  // A dice roll (gameLogic.js:94-232)

  /** Step 1 of `handleRollDice`: a rolled fox is chased off by a small dog, which goes back to the
      bank, or else takes all the rabbits but one. */
  method FoxPhase(animals: Herd, bank: Herd, die1: Kind, die2: Kind) returns (a: Herd, b: Herd, smallDogUsed: bool)
    ensures Herds(a, b) == FoxStep(Herds(animals, bank), die1, die2)
    ensures smallDogUsed <==> FoxRolled(die1, die2) && Count(animals, SmallDog) > 0
  {
    a, b, smallDogUsed := animals, bank, false;
    if die1 == Fox || die2 == Fox {
      if Count(a, SmallDog) > 0 {
        a := a[SmallDog := Count(a, SmallDog) - 1];
        b := b[SmallDog := Count(b, SmallDog) + 1];
        smallDogUsed := true;
      } else {
        var rabbitsLost := if Count(a, Rabbit) > 1 then Count(a, Rabbit) - 1 else 0;
        if rabbitsLost > 0 {
          a := a[Rabbit := 1];
          b := b[Rabbit := Count(b, Rabbit) + rabbitsLost];
        }
      }
    }
  }

  /** Step 2 of `handleRollDice`: a rolled wolf is chased off by a big dog, which goes back to the
      bank, or else takes every sheep, pig and cow. */
  method WolfPhase(animals: Herd, bank: Herd, die1: Kind, die2: Kind) returns (a: Herd, b: Herd, bigDogUsed: bool)
    ensures Herds(a, b) == WolfStep(Herds(animals, bank), die1, die2)
    ensures bigDogUsed <==> WolfRolled(die1, die2) && Count(animals, BigDog) > 0
  {
    a, b, bigDogUsed := animals, bank, false;
    if die1 == Wolf || die2 == Wolf {
      if Count(a, BigDog) > 0 {
        a := a[BigDog := Count(a, BigDog) - 1];
        b := b[BigDog := Count(b, BigDog) + 1];
        bigDogUsed := true;
      } else {
        for w := 0 to |WolfPrey|
          invariant Herds(a, b) == LoseAll(Herds(animals, bank), WolfPrey[..w])
        {
          var kind := WolfPrey[w];
          assert WolfPrey[..w + 1][..w] == WolfPrey[..w];
          if Count(a, kind) > 0 {
            b := b[kind := Count(b, kind) + Count(a, kind)];
            a := a[kind := 0];
          }
        }
        assert WolfPrey[..|WolfPrey|] == WolfPrey;
      }
    }
  }

  /** Step 3 of `handleRollDice`: each face in turn breeds its kind (see `BreedFace`). */
  method BreedPhase(animals: Herd, bank: Herd, die1: Kind, die2: Kind, guard: Guard) returns (a: Herd, b: Herd)
    ensures Herds(a, b) == Breed(Herds(animals, bank), [die1, die2], [die1, die2], guard)
  {
    a, b := animals, bank;
    var diceOutcomes := [die1, die2];
    for o := 0 to |diceOutcomes|
      invariant Herds(a, b) == Breed(Herds(animals, bank), diceOutcomes[..o], diceOutcomes, guard)
    {
      assert diceOutcomes[..o + 1][..o] == diceOutcomes[..o];
      a, b := BreedFace(a, b, diceOutcomes[o], die1, die2, guard);
    }
    assert diceOutcomes[..|diceOutcomes|] == diceOutcomes;
  }

  /** One face of step 3: nothing for a predator, for a kind a loose predator forbids, or for a
      first cow or horse; otherwise the pairs among the held animals and the matching faces are
      paid from the bank as far as it can. */
  method BreedFace(animals: Herd, bank: Herd, outcome: Kind, die1: Kind, die2: Kind, guard: Guard)
    returns (a: Herd, b: Herd)
    ensures Herds(a, b) == BreedStep(Herds(animals, bank), outcome, [die1, die2], guard)
  {
    a, b := animals, bank;
    if outcome == Wolf || outcome == Fox {
      BreedStepIdle(Herds(animals, bank), outcome, [die1, die2], guard);
      return;
    }
    var canBreedThisAnimal := !Suppressed(outcome, guard);
    if !canBreedThisAnimal || Blocked(a, outcome) {
      BreedStepIdle(Herds(animals, bank), outcome, [die1, die2], guard);
      return;
    }
    var faces := (if die1 == outcome then 1 else 0) + (if die2 == outcome then 1 else 0);
    var pairs := (Count(a, outcome) + faces) / 2;
    var amountToGain := 0;
    if pairs > 0 {
      amountToGain := Min(pairs, Count(b, outcome));
      if amountToGain > 0 {
        a := a[outcome := Count(a, outcome) + amountToGain];
        b := b[outcome := Count(b, outcome) - amountToGain];
      }
    }
    BreedStepPays(Herds(animals, bank), outcome, die1, die2, guard, amountToGain);
    assert Herds(a, b) == if amountToGain > 0 then FromBank(Herds(animals, bank), outcome, amountToGain)
                          else Herds(animals, bank);
  }

  lemma BreedStepIdle(h: Herds, outcome: Kind, dice: seq<Kind>, guard: Guard)
    requires outcome == Wolf || outcome == Fox || Suppressed(outcome, guard) || Blocked(h.player, outcome)
    ensures BreedStep(h, outcome, dice, guard) == h
  {
  }

  /** `BreedStep` pays `Gain` for a face that may breed, however the gain was computed. */
  lemma BreedStepPays(h: Herds, outcome: Kind, die1: Kind, die2: Kind, guard: Guard, amount: int)
    requires outcome != Wolf && outcome != Fox && !Suppressed(outcome, guard) && !Blocked(h.player, outcome)
    requires var faces := (if die1 == outcome then 1 else 0) + (if die2 == outcome then 1 else 0);
             var pairs := (Count(h.player, outcome) + faces) / 2;
             amount == (if pairs > 0 then Min(pairs, Count(h.bank, outcome)) else 0)
    ensures BreedStep(h, outcome, [die1, die2], guard) ==
            if amount > 0 then FromBank(h, outcome, amount) else h
  {
    OccurrencesPair(die1, die2, outcome);
  }

  /** The three steps of `handleRollDice` one after another give `Dice.Roll`. */
  method RollHerds(animals: Herd, bank: Herd, die1: Kind, die2: Kind) returns (a: Herd, b: Herd)
    ensures Herds(a, b) == Roll(Herds(animals, bank), die1, die2)
  {
    ghost var h := Herds(animals, bank);
    var smallDogUsed, bigDogUsed;
    a, b, smallDogUsed := FoxPhase(animals, bank, die1, die2);
    ghost var fox := Herds(a, b);
    a, b, bigDogUsed := WolfPhase(a, b, die1, die2);
    assert Herds(a, b) == AfterPredators(h, die1, die2);
    var guard := Guard(FoxRolled(die1, die2) && !smallDogUsed, WolfRolled(die1, die2) && !bigDogUsed);
    GuardFromFlags(h, die1, die2, smallDogUsed, bigDogUsed);
    a, b := BreedPhase(a, b, die1, die2, guard);
  }

  /** The flags `smallDogUsed` and `bigDogUsed` decide breeding exactly as `Dice.GuardOf` does. */
  lemma GuardFromFlags(h: Herds, die1: Kind, die2: Kind, smallDogUsed: bool, bigDogUsed: bool)
    requires smallDogUsed <==> FoxRolled(die1, die2) && Count(h.player, SmallDog) > 0
    requires bigDogUsed <==> WolfRolled(die1, die2) && Count(FoxStep(h, die1, die2).player, BigDog) > 0
    ensures Guard(FoxRolled(die1, die2) && !smallDogUsed, WolfRolled(die1, die2) && !bigDogUsed) ==
            GuardOf(h, die1, die2)
  {
  }

  const PlayerNotFound: string := "Gracz nie znaleziony."

  /** `ps` with the animals of player `i` replaced. */
  function WithAnimals(ps: seq<Player>, i: int, animals: Herd): seq<Player>
    requires 0 <= i < |ps|
  {
    ps[i := ps[i].(animals := animals)]
  }

  /** The game state after player `playerId` has rolled and the bank has become `bank`. */
  function RolledState(gs: GameState, playerId: PlayerId, bank: Herd, die1: Kind, die2: Kind): GameState
    requires playerId in gs.playerTurnState
  {
    gs.(mainHerd := bank, diceResult := Some(DiceResult(die1, die2)),
        playerTurnState := gs.playerTurnState[playerId := gs.playerTurnState[playerId].(hasRolled := true)])
  }

  /** `handleRollDice` with the faces given: an unknown player is refused and nothing changes;
      otherwise the roller's animals and the bank become what `Dice.Roll` gives, the faces are
      recorded and the roller's `hasRolled` flag is set. Every kind's total is kept. */
  method HandleRollDice(room: Room, playerId: PlayerId, die1: Kind, die2: Kind) returns (r: Result<DiceResult, string>)
    requires room.Valid() && room.gameStarted
    modifies room
    ensures r.Failure? <==> FindIndex(old(room.players), playerId) == -1
    ensures r.Failure? ==> r.error == PlayerNotFound && unchanged(room)
    ensures r.Success? ==>
      var i := FindIndex(old(room.players), playerId);
      var gs := old(room.gameState).value;
      var after := Roll(Herds(old(room.players)[i].animals, gs.mainHerd), die1, die2);
      r.value == DiceResult(die1, die2) && playerId in gs.playerTurnState &&
      room.players == WithAnimals(old(room.players), i, after.player) &&
      room.gameState == Some(RolledState(gs, playerId, after.bank, die1, die2))
    ensures room.gameStarted && room.Valid()
    ensures forall k :: room.Total(k) == old(room.Total(k))
  {
    var i := FindIndex(room.players, playerId);
    if i == -1 {
      return Failure(PlayerNotFound);
    }
    var player := room.players[i];
    var gs := room.gameState.value;
    var a, b := RollHerds(player.animals, gs.mainHerd, die1, die2);
    RollKeepsValidRoom(room.players, gs, i, die1, die2);
    room.players := WithAnimals(room.players, i, a);
    room.gameState := Some(RolledState(gs, playerId, b, die1, die2));
    return Success(DiceResult(die1, die2));
  }

  /** A roll keeps the room invariant and every kind's room total. */
  lemma RollKeepsValidRoom(ps: seq<Player>, gs: GameState, i: int, die1: Kind, die2: Kind)
    requires ValidRoom(MaxPlayersPerRoom, ps, true, Some(gs)) && 0 <= i < |ps|
    ensures var after := Roll(Herds(ps[i].animals, gs.mainHerd), die1, die2);
            var ps' := WithAnimals(ps, i, after.player);
            var gs' := RolledState(gs, ps[i].id, after.bank, die1, die2);
            ValidRoom(MaxPlayersPerRoom, ps', true, Some(gs')) &&
            forall k :: RoomTotal(ps', Some(gs'), k) == RoomTotal(ps, Some(gs), k)
  {
    var h := Herds(ps[i].animals, gs.mainHerd);
    RollKeepsSound(h, die1, die2);
    RollConserves(h, die1, die2);
    HandChangeKeepsRoom(ps, i, gs.mainHerd, Roll(h, die1, die2));
  }

  /** Replacing one player's animals and the bank by herds with the same totals keeps every
      kind's room total, the distinct ids and, for sound herds, the absence of negative counts. */
  lemma HandChangeKeepsRoom(ps: seq<Player>, i: int, bank: Herd, after: Herds)
    requires 0 <= i < |ps| && UniqueIds(ps) && NoNegativeCounts(ps, None)
    requires Conserved(Herds(ps[i].animals, bank), after) && Sound(after)
    ensures var ps' := WithAnimals(ps, i, after.player);
            UniqueIds(ps') && NoNegativeCounts(ps', None) &&
            forall k :: PlayersCount(ps', k) + Count(after.bank, k) == PlayersCount(ps, k) + Count(bank, k)
  {
    var ps' := WithAnimals(ps, i, after.player);
    forall k ensures PlayersCount(ps', k) + Count(after.bank, k) == PlayersCount(ps, k) + Count(bank, k) {
      PlayersCountUpdate(ps, i, after.player, k);
      assert Total(after, k) == Total(Herds(ps[i].animals, bank), k);
    }
  }

  // ---------------------------------------------------------------------------------------------
  // An exchange with the bank (gameLogic.js:257-296)

  /** Why `handleExchangeWithBank` throws: the player is not in the room, or a check fails. */
  datatype BankFailure = NoSuchPlayer | CheckFailed(reason: ExchangeError)

  /** The checks and the four count updates of `handleExchangeWithBank` give `Bank.Exchange`. */
  method ExchangeHerds(animals: Herd, bank: Herd, fromAnimal: Kind, fromAmount: Option<int>, toAnimal: Kind)
    returns (r: Result<Herds, ExchangeError>)
    ensures r == Exchange(Herds(animals, bank), fromAnimal, fromAmount, toAnimal)
  {
    var check := ExchangeCheck(Herds(animals, bank), fromAnimal, fromAmount, toAnimal);
    if check.Failure? {
      return Failure(check.error);
    }
    var rule := check.value;
    var amount := fromAmount.value;
    var totalToReceive := Received(rule, amount);
    var a, b := animals, bank;
    a := a[fromAnimal := Count(a, fromAnimal) - amount];
    b := b[fromAnimal := Count(b, fromAnimal) + amount];
    a := a[toAnimal := Count(a, toAnimal) + totalToReceive];
    b := b[toAnimal := Count(b, toAnimal) - totalToReceive];
    return Success(Herds(a, b));
  }

  /** The game state after player `playerId` has exchanged and the bank has become `bank`. */
  function ExchangedState(gs: GameState, playerId: PlayerId, bank: Herd): GameState
    requires playerId in gs.playerTurnState
  {
    gs.(mainHerd := bank,
        playerTurnState := gs.playerTurnState[playerId := gs.playerTurnState[playerId].(hasExchanged := true)])
  }

  /** `handleExchangeWithBank`: an unknown player or a failed check of `Bank.ExchangeCheck` changes
      nothing; otherwise the player's animals and the bank become what `Bank.Exchange` gives and
      the player's `hasExchanged` flag is set. Every kind's total is kept. */
  method HandleExchangeWithBank(room: Room, playerId: PlayerId, fromAnimal: Kind, fromAmount: Option<int>, toAnimal: Kind)
    returns (r: Outcome<BankFailure>)
    requires room.Valid() && room.gameStarted
    modifies room
    ensures FindIndex(old(room.players), playerId) == -1 ==> r == Fail(NoSuchPlayer)
    ensures FindIndex(old(room.players), playerId) != -1 ==>
      var i := FindIndex(old(room.players), playerId);
      var gs := old(room.gameState).value;
      var x := Exchange(Herds(old(room.players)[i].animals, gs.mainHerd), fromAnimal, fromAmount, toAnimal);
      playerId in gs.playerTurnState &&
      (x.Failure? ==> r == Fail(CheckFailed(x.error))) &&
      (x.Success? ==> r == Pass &&
                      room.players == WithAnimals(old(room.players), i, x.value.player) &&
                      room.gameState == Some(ExchangedState(gs, playerId, x.value.bank)))
    ensures r.Fail? ==> unchanged(room)
    ensures room.gameStarted && room.Valid()
    ensures forall k :: room.Total(k) == old(room.Total(k))
  {
    var i := FindIndex(room.players, playerId);
    if i == -1 {
      return Fail(NoSuchPlayer);
    }
    var player := room.players[i];
    var gs := room.gameState.value;
    var x := ExchangeHerds(player.animals, gs.mainHerd, fromAnimal, fromAmount, toAnimal);
    if x.Failure? {
      return Fail(CheckFailed(x.error));
    }
    ExchangeKeepsValidRoom(room.players, gs, i, fromAnimal, fromAmount, toAnimal);
    room.players := WithAnimals(room.players, i, x.value.player);
    room.gameState := Some(ExchangedState(gs, playerId, x.value.bank));
    return Pass;
  }

  /** An exchange that passes its checks keeps the room invariant and every kind's room total. */
  lemma ExchangeKeepsValidRoom(ps: seq<Player>, gs: GameState, i: int, fromAnimal: Kind, fromAmount: Option<int>, toAnimal: Kind)
    requires ValidRoom(MaxPlayersPerRoom, ps, true, Some(gs)) && 0 <= i < |ps|
    requires Exchange(Herds(ps[i].animals, gs.mainHerd), fromAnimal, fromAmount, toAnimal).Success?
    ensures var after := Exchange(Herds(ps[i].animals, gs.mainHerd), fromAnimal, fromAmount, toAnimal).value;
            var ps' := WithAnimals(ps, i, after.player);
            var gs' := ExchangedState(gs, ps[i].id, after.bank);
            ValidRoom(MaxPlayersPerRoom, ps', true, Some(gs')) &&
            forall k :: RoomTotal(ps', Some(gs'), k) == RoomTotal(ps, Some(gs), k)
  {
    var h := Herds(ps[i].animals, gs.mainHerd);
    ExchangeKeepsSound(h, fromAnimal, fromAmount, toAnimal);
    ExchangeConserves(h, fromAnimal, fromAmount, toAnimal);
    HandChangeKeepsRoom(ps, i, gs.mainHerd, Exchange(h, fromAnimal, fromAmount, toAnimal).value);
  }
}
