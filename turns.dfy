/**
 * Whose turn comes next and who has won (gameLogic.js:298-327). Turn order is the order of the
 * room's player list restricted to the players that have a socket bound.
 */
module Turns {
  import opened Wrappers
  import opened Rules
  import opened Dice
  import opened Bank
  import opened Model

  /** `room.players.filter(p => p.socketId)`: the connected players, in list order. */
  function Active(ps: seq<Player>): (act: seq<Player>)
    ensures |act| <= |ps|
  {
    if ps == [] then []
    else if ps[0].socketId.Some? then [ps[0]] + Active(ps[1..])
    else Active(ps[1..])
  }

  /** The connected players are exactly the players of the list that have a socket. */
  lemma {:induction false} ActiveMembers(ps: seq<Player>)
    ensures forall i :: 0 <= i < |Active(ps)| ==> Active(ps)[i] in ps && Active(ps)[i].socketId.Some?
    ensures forall i :: 0 <= i < |ps| && ps[i].socketId.Some? ==> ps[i] in Active(ps)
    decreases |ps|
  {
    if ps != [] {
      ActiveMembers(ps[1..]);
      forall i | 0 <= i < |ps| && ps[i].socketId.Some? ensures ps[i] in Active(ps) {
        if i > 0 {
          assert ps[i] == ps[1..][i - 1];
        }
      }
    }
  }

  /** `filter` keeps the list's order: the connected players of a concatenation are those of the
      first part followed by those of the second. */
  lemma {:induction false} ActiveConcat(a: seq<Player>, b: seq<Player>)
    ensures Active(a + b) == Active(a) + Active(b)
    decreases |a|
  {
    if a == [] {
      assert a + b == b;
    } else {
      ActiveConcat(a[1..], b);
      assert (a + b)[1..] == a[1..] + b;
    }
  }

  /** A single player is kept exactly when it is connected. */
  lemma ActiveSingle(p: Player)
    ensures Active([p]) == if p.socketId.Some? then [p] else []
  {
    assert [p][1..] == [];
  }

  /** The first connected player is the earliest player in the list with a socket. */
  lemma {:induction false} ActiveFirst(ps: seq<Player>)
    requires Active(ps) != []
    ensures exists k :: 0 <= k < |ps| && ps[k] == Active(ps)[0] && ps[k].socketId.Some? &&
                        forall j :: 0 <= j < k ==> ps[j].socketId.None?
    decreases |ps|
  {
    if ps[0].socketId.None? {
      ActiveFirst(ps[1..]);
      var k :| 0 <= k < |ps[1..]| && ps[1..][k] == Active(ps[1..])[0] && ps[1..][k].socketId.Some? &&
               forall j :: 0 <= j < k ==> ps[1..][j].socketId.None?;
      assert ps[k + 1] == Active(ps)[0];
      forall j | 0 <= j < k + 1 ensures ps[j].socketId.None? {
        if j > 0 {
          assert ps[j] == ps[1..][j - 1];
        }
      }
    } else {
      assert ps[0] == Active(ps)[0];
    }
  }

  /** The player `determineNextPlayer` names (gameLogic.js:309-327): `None` when nobody is
      connected, the first connected player when `current` is not among them, and otherwise
      `current` itself (`skipCurrent`) or the connected player after it, wrapping around. */
  function NextPlayer(ps: seq<Player>, current: PlayerId, skipCurrent: bool): Option<PlayerId>
  {
    var act := Active(ps);
    if |act| == 0 then None
    else
      var i := FindIndex(act, current);
      if i == -1 then Some(act[0].id)
      else Some(act[NextIndex(i, |act|, skipCurrent)].id)
  }

  /** `skipCurrent ? currentIndex : (currentIndex + 1) % activePlayers.length`. */
  function NextIndex(i: int, n: int, skipCurrent: bool): (r: int)
    requires 0 <= i < n
    ensures 0 <= r < n
    ensures r == if skipCurrent then i else Following(i, n)
  {
    if skipCurrent then i else (i + 1) % n
  }

  /** Whether `determineNextPlayer` reaches its flag reset, i.e. finds `current` among the
      connected players; the early return for an absent `current` resets nothing. */
  predicate ResetsTurn(ps: seq<Player>, current: PlayerId)
  {
    FindIndex(Active(ps), current) != -1
  }

  /** Nobody is named exactly when nobody is connected. */
  lemma NextNoneIff(ps: seq<Player>, current: PlayerId, skipCurrent: bool)
    ensures NextPlayer(ps, current, skipCurrent).None? <==>
            forall i :: 0 <= i < |ps| ==> ps[i].socketId.None?
  {
    ActiveMembers(ps);
    if exists i :: 0 <= i < |ps| && ps[i].socketId.Some? {
      var i :| 0 <= i < |ps| && ps[i].socketId.Some?;
      assert ps[i] in Active(ps);
    }
  }

  /** The player named is a connected member of the room. */
  lemma NextIsConnected(ps: seq<Player>, current: PlayerId, skipCurrent: bool)
    requires NextPlayer(ps, current, skipCurrent).Some?
    ensures exists i :: 0 <= i < |ps| && ps[i].id == NextPlayer(ps, current, skipCurrent).value &&
                        ps[i].socketId.Some?
  {
    var act := Active(ps);
    ActiveMembers(ps);
    var j := FindIndex(act, current);
    var n := if j == -1 then 0 else NextIndex(j, |act|, skipCurrent);
    assert act[n] in ps;
  }

  /** A `current` that is not connected hands the turn to the first connected player. */
  lemma NextWhenAbsent(ps: seq<Player>, current: PlayerId, skipCurrent: bool)
    requires forall i :: 0 <= i < |ps| && ps[i].socketId.Some? ==> ps[i].id != current
    ensures !ResetsTurn(ps, current)
    ensures NextPlayer(ps, current, skipCurrent) ==
            if Active(ps) == [] then None else Some(Active(ps)[0].id)
  {
    var act := Active(ps);
    ActiveMembers(ps);
    forall j | 0 <= j < |act| ensures act[j].id != current {
      assert act[j] in ps;
    }
  }

  /** Skipping keeps the turn with a connected `current`. */
  lemma NextSkipStays(ps: seq<Player>, current: PlayerId)
    requires exists i :: 0 <= i < |ps| && ps[i].id == current && ps[i].socketId.Some?
    ensures ResetsTurn(ps, current)
    ensures NextPlayer(ps, current, true) == Some(current)
  {
    var i :| 0 <= i < |ps| && ps[i].id == current && ps[i].socketId.Some?;
    ActiveMembers(ps);
    assert ps[i] in Active(ps);
  }

  /** Connected players are a sub-list, so their ids stay distinct. */
  lemma {:induction false} ActiveUnique(ps: seq<Player>)
    requires UniqueIds(ps)
    ensures UniqueIds(Active(ps))
  {
    if ps != [] {
      assert UniqueIds(ps[1..]) by {
        forall i, j | 0 <= i < |ps[1..]| && 0 <= j < |ps[1..]| && ps[1..][i].id == ps[1..][j].id
          ensures i == j
        {
          assert ps[i + 1].id == ps[j + 1].id;
        }
      }
      ActiveUnique(ps[1..]);
      if ps[0].socketId.Some? {
        var rest := Active(ps[1..]);
        ActiveMembers(ps[1..]);
        forall t | 0 <= t < |rest| ensures rest[t].id != ps[0].id {
          var m :| 0 <= m < |ps[1..]| && ps[1..][m] == rest[t];
          assert ps[m + 1] == rest[t];
        }
      }
    }
  }

  /** The position after `j` among `n` connected players: `(j + 1) % n` without the division. */
  function Following(j: int, n: int): int
  {
    if j + 1 < n then j + 1 else 0
  }

  /** From the connected player at position `j` the turn moves to the next position, wrapping. */
  lemma NextFromPosition(ps: seq<Player>, j: int)
    requires UniqueIds(ps) && 0 <= j < |Active(ps)|
    ensures ResetsTurn(ps, Active(ps)[j].id)
    ensures NextPlayer(ps, Active(ps)[j].id, false) == Some(Active(ps)[Following(j, |Active(ps)|)].id)
  {
    var act := Active(ps);
    ActiveUnique(ps);
    FindIndexUnique(act, act[j].id, j);
    assert FindIndex(act, act[j].id) == j;
  }

  /** A connected member sits at some position of the connected players. */
  lemma ConnectedPosition(ps: seq<Player>, id: PlayerId)
    requires exists i :: 0 <= i < |ps| && ps[i].id == id && ps[i].socketId.Some?
    ensures exists j :: 0 <= j < |Active(ps)| && Active(ps)[j].id == id
  {
    var i :| 0 <= i < |ps| && ps[i].id == id && ps[i].socketId.Some?;
    ActiveMembers(ps);
    assert ps[i] in Active(ps);
  }

  /** With two or more connected players the turn always passes to somebody else. */
  lemma NextRotates(ps: seq<Player>, current: PlayerId)
    requires UniqueIds(ps) && |Active(ps)| >= 2
    requires exists i :: 0 <= i < |ps| && ps[i].id == current && ps[i].socketId.Some?
    ensures NextPlayer(ps, current, false).Some? && NextPlayer(ps, current, false).value != current
  {
    var act := Active(ps);
    ConnectedPosition(ps, current);
    var j :| 0 <= j < |act| && act[j].id == current;
    NextFromPosition(ps, j);
    ActiveUnique(ps);
    var f := Following(j, |act|);
    assert f != j;
    assert act[f].id != act[j].id;
  }

  /** The turn passed on `m` times, starting from `current`. */
  function Passed(ps: seq<Player>, current: PlayerId, m: nat): Option<PlayerId>
  {
    if m == 0 then Some(current)
    else match Passed(ps, current, m - 1)
      case None => None
      case Some(c) => NextPlayer(ps, c, false)
  }

  /** The position reached from `j` after `m` moves to the following position. */
  function Advance(j: int, m: nat, n: int): (p: int)
    requires 0 <= j < n
    ensures 0 <= p < n
  {
    if m == 0 then j else Following(Advance(j, m - 1, n), n)
  }

  /** Within one round the position only ever wraps once. */
  lemma {:induction false} AdvanceWithinRound(j: int, m: nat, n: int)
    requires 0 <= j < n && m <= n
    ensures Advance(j, m, n) == if j + m < n then j + m else j + m - n
  {
    if m > 0 {
      AdvanceWithinRound(j, m - 1, n);
    }
  }

  /** Starting at position `j`, after `m` turns the turn is at position `Advance(j, m, n)`. */
  lemma {:induction false} PassedFromPosition(ps: seq<Player>, j: int, m: nat)
    requires UniqueIds(ps) && 0 <= j < |Active(ps)|
    ensures Passed(ps, Active(ps)[j].id, m) == Some(Active(ps)[Advance(j, m, |Active(ps)|)].id)
  {
    if m > 0 {
      PassedFromPosition(ps, j, m - 1);
      NextFromPosition(ps, Advance(j, m - 1, |Active(ps)|));
    }
  }

  /** Turn order is fair: every connected player gets the turn within one round. */
  lemma TurnReaches(ps: seq<Player>, current: PlayerId, k: int)
    requires UniqueIds(ps)
    requires exists i :: 0 <= i < |ps| && ps[i].id == current && ps[i].socketId.Some?
    requires 0 <= k < |ps| && ps[k].socketId.Some?
    ensures exists m :: 0 <= m < |Active(ps)| && Passed(ps, current, m) == Some(ps[k].id)
  {
    var act := Active(ps);
    ConnectedPosition(ps, current);
    var j :| 0 <= j < |act| && act[j].id == current;
    ConnectedPosition(ps, ps[k].id);
    var t :| 0 <= t < |act| && act[t].id == ps[k].id;
    var m := if t >= j then t - j else t - j + |act|;
    PassedFromPosition(ps, j, m);
    AdvanceWithinRound(j, m, |act|);
    assert Advance(j, m, |act|) == t;
    assert Passed(ps, current, m) == Some(ps[k].id);
  }

  /** Once every connected player has had a turn, the turn is back where it started. */
  lemma TurnsCycle(ps: seq<Player>, current: PlayerId)
    requires UniqueIds(ps)
    requires exists i :: 0 <= i < |ps| && ps[i].id == current && ps[i].socketId.Some?
    ensures Passed(ps, current, |Active(ps)|) == Some(current)
  {
    var act := Active(ps);
    ConnectedPosition(ps, current);
    var j :| 0 <= j < |act| && act[j].id == current;
    PassedFromPosition(ps, j, |act|);
    AdvanceWithinRound(j, |act|, |act|);
    assert Advance(j, |act|, |act|) == j;
    assert Passed(ps, current, |act|) == Some(act[j].id);
  }

  /** `checkWinCondition` (gameLogic.js:298-307): at least one rabbit, sheep, pig, cow and horse. */
  predicate CheckWinCondition(animals: Herd)
  {
    Count(animals, Rabbit) >= 1 && Count(animals, Sheep) >= 1 && Count(animals, Pig) >= 1 &&
    Count(animals, Cow) >= 1 && Count(animals, Horse) >= 1
  }

  /** A player wins exactly when they hold at least one of every farm animal the bank stocks,
      i.e. of every animal but the two dogs. */
  lemma WinIffFarmComplete(animals: Herd)
    ensures CheckWinCondition(animals) <==>
            forall k :: k in InitialMainHerd && k != SmallDog && k != BigDog ==> Count(animals, k) >= 1
  {
    assert Rabbit in InitialMainHerd && Sheep in InitialMainHerd && Pig in InitialMainHerd;
    assert Cow in InitialMainHerd && Horse in InitialMainHerd;
  }

  /** A winning herd is worth at least 127 rabbits at the bank's rates. */
  lemma WinningHerdWorth(animals: Herd)
    requires NonNegative(animals) && CheckWinCondition(animals)
    ensures Value(animals) >= 1 + 6 + 12 + 36 + 72
  {
    var c := Count(animals, SmallDog) + Count(animals, BigDog);
    assert c >= 0;
    assert ValueOf(animals, [BigDog]) == 36 * Count(animals, BigDog);
    assert ValueOf(animals, [SmallDog, BigDog]) == 6 * Count(animals, SmallDog) + ValueOf(animals, [BigDog]);
    assert ValueOf(animals, [Horse, SmallDog, BigDog]) >= 72;
    assert ValueOf(animals, [Cow, Horse, SmallDog, BigDog]) >= 36 + 72;
    assert ValueOf(animals, [Pig, Cow, Horse, SmallDog, BigDog]) >= 12 + 36 + 72;
    assert ValueOf(animals, [Sheep, Pig, Cow, Horse, SmallDog, BigDog]) >= 6 + 12 + 36 + 72;
  }

  /** The dice alone cannot complete a herd that lacks a cow or a horse: the first of each has to
      come from an exchange (gameLogic.js:186-196). */
  lemma RollCannotWinWithoutCowAndHorse(h: Herds, d1: Kind, d2: Kind)
    requires d1 in Dice1 && d2 in Dice2 && Sound(h)
    requires Count(h.player, Cow) == 0 || Count(h.player, Horse) == 0
    ensures !CheckWinCondition(Roll(h, d1, d2).player)
  {
    if Count(h.player, Cow) == 0 {
      RollNoFirstCowOrHorse(h, d1, d2, Cow);
    } else {
      RollNoFirstCowOrHorse(h, d1, d2, Horse);
    }
  }
}
