/**
 * Resolution of one dice roll on the roller's herd and the bank (gameLogic.js:94-232):
 * fox against small dog, wolf against big dog, then breeding face by face.
 * The functions here are the specification the imperative handler in GameLogic is proved against.
 */
module Dice {
  import opened Wrappers
  import opened Rules

  /** The two count maps a roll touches: the roller's animals and the bank's main herd. */
  datatype Herds = Herds(player: Herd, bank: Herd)

  /** Player count plus bank count of one kind. */
  function Total(h: Herds, k: Kind): int
  {
    Count(h.player, k) + Count(h.bank, k)
  }

  predicate Conserved(h: Herds, h': Herds)
  {
    forall k :: Total(h', k) == Total(h, k)
  }

  predicate Sound(h: Herds)
  {
    NonNegative(h.player) && NonNegative(h.bank)
  }

  /** `n` animals of kind `k` go from the player to the bank. */
  function ToBank(h: Herds, k: Kind, n: int): Herds
  {
    Herds(h.player[k := Count(h.player, k) - n], h.bank[k := Count(h.bank, k) + n])
  }

  /** `n` animals of kind `k` go from the bank to the player. */
  function FromBank(h: Herds, k: Kind, n: int): Herds
  {
    Herds(h.player[k := Count(h.player, k) + n], h.bank[k := Count(h.bank, k) - n])
  }

  predicate FoxRolled(d1: Kind, d2: Kind)
  {
    d1 == Fox || d2 == Fox
  }

  predicate WolfRolled(d1: Kind, d2: Kind)
  {
    d1 == Wolf || d2 == Wolf
  }

  /** A fox is rolled and no small dog is there to chase it (`!smallDogUsed`). */
  predicate FoxLoose(h: Herds, d1: Kind, d2: Kind)
  {
    FoxRolled(d1, d2) && Count(h.player, SmallDog) <= 0
  }

  /** A wolf is rolled and no big dog is there to chase it (`!bigDogUsed`). */
  predicate WolfLoose(h: Herds, d1: Kind, d2: Kind)
  {
    WolfRolled(d1, d2) && Count(h.player, BigDog) <= 0
  }

  /** Step 1 (gameLogic.js:108-134). */
  function FoxStep(h: Herds, d1: Kind, d2: Kind): Herds
  {
    if !FoxRolled(d1, d2) then h
    else if Count(h.player, SmallDog) > 0 then ToBank(h, SmallDog, 1)
    else
      var lost := if Count(h.player, Rabbit) > 1 then Count(h.player, Rabbit) - 1 else 0;
      if lost > 0 then ToBank(h, Rabbit, lost) else h
  }

  /** The kinds an undefended wolf takes, in the order gameLogic.js:146-152 visits them. */
  const WolfPrey: seq<Kind> := [Sheep, Pig, Cow]

  /** One kind lost to the wolf (gameLogic.js:147-151). */
  function LoseToWolf(h: Herds, k: Kind): Herds
  {
    if Count(h.player, k) > 0 then ToBank(h, k, Count(h.player, k)) else h
  }

  /** The kinds of `kinds` lost to the wolf one after another. */
  function LoseAll(h: Herds, kinds: seq<Kind>): Herds
    decreases |kinds|
  {
    if kinds == [] then h else LoseToWolf(LoseAll(h, kinds[..|kinds| - 1]), kinds[|kinds| - 1])
  }

  /** Step 2 (gameLogic.js:136-167). */
  function WolfStep(h: Herds, d1: Kind, d2: Kind): Herds
  {
    if !WolfRolled(d1, d2) then h
    else if Count(h.player, BigDog) > 0 then ToBank(h, BigDog, 1)
    else LoseAll(h, WolfPrey)
  }

  /** How many of the rolled faces show `k`. */
  function Occurrences(dice: seq<Kind>, k: Kind): (n: nat)
    ensures n <= |dice|
  {
    if dice == [] then 0 else (if dice[0] == k then 1 else 0) + Occurrences(dice[1..], k)
  }

  /** What breeding gives: the pairs among held animals plus matching faces, capped by the bank. */
  function Gain(held: int, faces: int, stock: int): (g: int)
    ensures g >= 0
    ensures held >= 0 && faces >= 0 && stock >= 0 ==> g == Min((held + faces) / 2, stock)
    ensures held + faces < 2 ==> g == 0
  {
    var pairs := (held + faces) / 2;
    if pairs > 0 && Min(pairs, stock) > 0 then Min(pairs, stock) else 0
  }

  /** The first cow or horse cannot come from the dice (gameLogic.js:186-196).
      `!player.animals.pig > 0` parses as `(!pig) > 0`, which holds exactly when pig is 0. */
  predicate Blocked(p: Herd, k: Kind)
  {
    (k == Horse && Count(p, Horse) == 0 && Count(p, Cow) == 0) ||
    (k == Cow && Count(p, Cow) == 0 && Count(p, Pig) == 0)
  }

  /** Whether the predators of this roll forbid breeding `k` (gameLogic.js:175-183). */
  datatype Guard = Guard(foxLoose: bool, wolfLoose: bool)

  predicate Suppressed(k: Kind, g: Guard)
  {
    (k == Rabbit && g.foxLoose) || ((k == Sheep || k == Pig || k == Cow) && g.wolfLoose)
  }

  /** Breeding for one face of the roll (gameLogic.js:172-215). */
  function BreedStep(h: Herds, outcome: Kind, dice: seq<Kind>, g: Guard): Herds
  {
    if outcome == Wolf || outcome == Fox || Suppressed(outcome, g) || Blocked(h.player, outcome) then h
    else
      var gain := Gain(Count(h.player, outcome), Occurrences(dice, outcome), Count(h.bank, outcome));
      if gain > 0 then FromBank(h, outcome, gain) else h
  }

  /** Breeding for the faces of `outcomes`, in order, each seeing the counts the previous left. */
  function Breed(h: Herds, outcomes: seq<Kind>, dice: seq<Kind>, g: Guard): Herds
    decreases |outcomes|
  {
    if outcomes == [] then h
    else BreedStep(Breed(h, outcomes[..|outcomes| - 1], dice, g), outcomes[|outcomes| - 1], dice, g)
  }

  function AfterPredators(h: Herds, d1: Kind, d2: Kind): Herds
  {
    WolfStep(FoxStep(h, d1, d2), d1, d2)
  }

  function GuardOf(h: Herds, d1: Kind, d2: Kind): Guard
  {
    Guard(FoxLoose(h, d1, d2), WolfLoose(FoxStep(h, d1, d2), d1, d2))
  }

  /** The whole roll: predators, then breeding for `die1` and then for `die2`. */
  function Roll(h: Herds, d1: Kind, d2: Kind): Herds
  {
    Breed(AfterPredators(h, d1, d2), [d1, d2], [d1, d2], GuardOf(h, d1, d2))
  }

  // ---------------------------------------------------------------------------------------------
  // Properties of the roll

  lemma BreedPair(h: Herds, a: Kind, b: Kind, dice: seq<Kind>, g: Guard)
    ensures Breed(h, [a, b], dice, g) == BreedStep(BreedStep(h, a, dice, g), b, dice, g)
  {
    assert [a, b][..1] == [a];
    assert [a][..0] == [];
    assert Breed(h, [a], dice, g) == BreedStep(Breed(h, [], dice, g), a, dice, g);
    assert Breed(h, [a, b], dice, g) == BreedStep(Breed(h, [a], dice, g), b, dice, g);
  }

  lemma OccurrencesPair(a: Kind, b: Kind, k: Kind)
    ensures Occurrences([a, b], k) == (if a == k then 1 else 0) + (if b == k then 1 else 0)
  {
    assert [a, b][1..] == [b];
    assert [b][1..] == [];
  }

  lemma {:induction false} BreedConserves(h: Herds, outcomes: seq<Kind>, dice: seq<Kind>, g: Guard)
    ensures Conserved(h, Breed(h, outcomes, dice, g))
    decreases |outcomes|
  {
    if outcomes != [] {
      BreedConserves(h, outcomes[..|outcomes| - 1], dice, g);
    }
  }

  lemma {:induction false} LoseAllConserves(h: Herds, kinds: seq<Kind>)
    ensures Conserved(h, LoseAll(h, kinds))
    decreases |kinds|
  {
    if kinds != [] {
      LoseAllConserves(h, kinds[..|kinds| - 1]);
    }
  }

  /** A roll only moves animals between the player and the bank (gameLogic.js:111-112, 119-120,
      149-150, 205-206). */
  lemma RollConserves(h: Herds, d1: Kind, d2: Kind)
    ensures Conserved(h, Roll(h, d1, d2))
  {
    var f := FoxStep(h, d1, d2);
    forall k ensures Total(AfterPredators(h, d1, d2), k) == Total(h, k) {
      FoxStepFacts(h, d1, d2, k);
      WolfStepFacts(f, d1, d2, k);
    }
    BreedConserves(AfterPredators(h, d1, d2), [d1, d2], [d1, d2], GuardOf(h, d1, d2));
  }

  lemma {:induction false} BreedKeepsSound(h: Herds, outcomes: seq<Kind>, dice: seq<Kind>, g: Guard)
    requires Sound(h)
    ensures Sound(Breed(h, outcomes, dice, g))
    decreases |outcomes|
  {
    if outcomes != [] {
      BreedKeepsSound(h, outcomes[..|outcomes| - 1], dice, g);
      var x := Breed(h, outcomes[..|outcomes| - 1], dice, g);
      var o := outcomes[|outcomes| - 1];
      var y := BreedStep(x, o, dice, g);
      forall k ensures Count(y.player, k) >= 0 && Count(y.bank, k) >= 0 {
        assert Count(x.player, k) >= 0 && Count(x.bank, k) >= 0;
      }
    }
  }

  lemma {:induction false} LoseAllKeepsSound(h: Herds, kinds: seq<Kind>)
    requires Sound(h)
    ensures Sound(LoseAll(h, kinds))
    decreases |kinds|
  {
    if kinds != [] {
      LoseAllKeepsSound(h, kinds[..|kinds| - 1]);
      var x := LoseAll(h, kinds[..|kinds| - 1]);
      var y := LoseToWolf(x, kinds[|kinds| - 1]);
      forall k ensures Count(y.player, k) >= 0 && Count(y.bank, k) >= 0 {
        assert Count(x.player, k) >= 0 && Count(x.bank, k) >= 0;
      }
    }
  }

  lemma PredatorsKeepSound(h: Herds, d1: Kind, d2: Kind)
    requires Sound(h)
    ensures Sound(AfterPredators(h, d1, d2))
  {
    var f := FoxStep(h, d1, d2);
    forall k ensures Count(f.player, k) >= 0 && Count(f.bank, k) >= 0 {
      assert Count(h.player, k) >= 0 && Count(h.bank, k) >= 0;
    }
    LoseAllKeepsSound(f, WolfPrey);
    var w := AfterPredators(h, d1, d2);
    forall k ensures Count(w.player, k) >= 0 && Count(w.bank, k) >= 0 {
      assert Count(f.player, k) >= 0 && Count(f.bank, k) >= 0;
      assert Count(LoseAll(f, WolfPrey).player, k) >= 0 && Count(LoseAll(f, WolfPrey).bank, k) >= 0;
    }
  }

  /** No count, of the player or of the bank, goes negative in a roll. */
  lemma RollKeepsSound(h: Herds, d1: Kind, d2: Kind)
    requires Sound(h)
    ensures Sound(Roll(h, d1, d2))
  {
    PredatorsKeepSound(h, d1, d2);
    BreedKeepsSound(AfterPredators(h, d1, d2), [d1, d2], [d1, d2], GuardOf(h, d1, d2));
  }
  /** Kinds a predator of this roll may take from the player. */
  predicate Threatened(k: Kind, d1: Kind, d2: Kind)
  {
    (FoxRolled(d1, d2) && (k == SmallDog || k == Rabbit)) ||
    (WolfRolled(d1, d2) && (k == BigDog || k == Sheep || k == Pig || k == Cow))
  }

  predicate SameKind(h: Herds, h': Herds, k: Kind)
  {
    Count(h'.player, k) == Count(h.player, k) && Count(h'.bank, k) == Count(h.bank, k)
  }

  lemma {:induction false} LoseAllOthers(h: Herds, kinds: seq<Kind>, k: Kind)
    requires k !in kinds
    ensures SameKind(h, LoseAll(h, kinds), k)
    decreases |kinds|
  {
    if kinds != [] {
      LoseAllOthers(h, kinds[..|kinds| - 1], k);
    }
  }

  /** Each prey kind is visited once: it drops to 0 if positive and the bank takes the lot. */
  lemma {:induction false} LoseAllPrey(h: Herds, kinds: seq<Kind>, k: Kind)
    requires k in kinds
    requires forall i, j :: 0 <= i < j < |kinds| ==> kinds[i] != kinds[j]
    ensures var c := Count(h.player, k);
            var r := LoseAll(h, kinds);
            Count(r.player, k) == (if c > 0 then 0 else c) &&
            Count(r.bank, k) == Count(h.bank, k) + (if c > 0 then c else 0)
    decreases |kinds|
  {
    var init := kinds[..|kinds| - 1];
    if kinds[|kinds| - 1] == k {
      assert k !in init;
      LoseAllOthers(h, init, k);
    } else {
      assert k in init;
      LoseAllPrey(h, init, k);
    }
  }

  /** The fox step moves animals to the bank, and only rabbits or one small dog. */
  lemma FoxStepFacts(h: Herds, d1: Kind, d2: Kind, k: Kind)
    ensures var f := FoxStep(h, d1, d2);
            Count(f.player, k) <= Count(h.player, k) && Total(f, k) == Total(h, k) &&
            (k != SmallDog && k != Rabbit ==> SameKind(h, f, k)) &&
            (k == Rabbit && !FoxLoose(h, d1, d2) ==> SameKind(h, f, k))
  {
  }

  /** The wolf step moves animals to the bank, and only prey or one big dog. */
  lemma WolfStepFacts(h: Herds, d1: Kind, d2: Kind, k: Kind)
    ensures var w := WolfStep(h, d1, d2);
            Count(w.player, k) <= Count(h.player, k) && Total(w, k) == Total(h, k) &&
            (k != BigDog && k !in WolfPrey ==> SameKind(h, w, k)) &&
            (k in WolfPrey && !WolfLoose(h, d1, d2) ==> SameKind(h, w, k))
  {
    if WolfRolled(d1, d2) && Count(h.player, BigDog) <= 0 {
      WolfFeast(h, k);
    }
  }

  /** An undefended wolf only moves prey to the bank. */
  lemma WolfFeast(h: Herds, k: Kind)
    ensures var w := LoseAll(h, WolfPrey);
            Count(w.player, k) <= Count(h.player, k) && Total(w, k) == Total(h, k) &&
            (k !in WolfPrey ==> SameKind(h, w, k))
  {
    if k in WolfPrey {
      LoseAllPrey(h, WolfPrey, k);
    } else {
      LoseAllOthers(h, WolfPrey, k);
    }
  }

  lemma PredatorsOthers(h: Herds, d1: Kind, d2: Kind, k: Kind)
    requires !Threatened(k, d1, d2)
    ensures SameKind(h, AfterPredators(h, d1, d2), k)
  {
    var f := FoxStep(h, d1, d2);
    if WolfRolled(d1, d2) && Count(f.player, BigDog) <= 0 {
      LoseAllOthers(f, WolfPrey, k);
    }
  }

  /** The big-dog test sees the counts the fox step left, and the fox step spares big dogs. */
  lemma GuardIsOriginal(h: Herds, d1: Kind, d2: Kind)
    ensures GuardOf(h, d1, d2) == Guard(FoxLoose(h, d1, d2), WolfLoose(h, d1, d2))
  {
  }

  /** Breeding leaves a kind alone when no face shows it or when a loose predator forbids it. */
  lemma {:induction false} BreedSkips(h: Herds, outcomes: seq<Kind>, dice: seq<Kind>, g: Guard, k: Kind)
    requires k !in outcomes || Suppressed(k, g)
    ensures SameKind(h, Breed(h, outcomes, dice, g), k)
    decreases |outcomes|
  {
    if outcomes != [] {
      BreedSkips(h, outcomes[..|outcomes| - 1], dice, g, k);
    }
  }

  /** One breeding visit of face `k`; the first-cow/horse block never changes a count here,
      because a held count of 0 plus at most one face makes no pair. */
  lemma BreedStepGains(h: Herds, k: Kind, dice: seq<Kind>, g: Guard)
    requires k != Wolf && k != Fox && !Suppressed(k, g)
    requires Occurrences(dice, k) <= 1 || !Blocked(h.player, k)
    ensures var c := Count(h.player, k);
            var gain := Gain(c, Occurrences(dice, k), Count(h.bank, k));
            var r := BreedStep(h, k, dice, g);
            Count(r.player, k) == c + gain && Count(r.bank, k) == Count(h.bank, k) - gain
  {
  }

  lemma BreedStepOthers(h: Herds, o: Kind, dice: seq<Kind>, g: Guard, k: Kind)
    requires o != k
    ensures SameKind(h, BreedStep(h, o, dice, g), k)
  {
  }

  /** With a defending small dog the fox takes that dog and nothing else (gameLogic.js:109-115). */
  lemma RollFoxHeldOff(h: Herds, d1: Kind, d2: Kind)
    requires d1 in Dice1 && d2 in Dice2
    requires FoxRolled(d1, d2) && Count(h.player, SmallDog) >= 1
    ensures var r := Roll(h, d1, d2);
            Count(r.player, SmallDog) == Count(h.player, SmallDog) - 1 &&
            Count(r.bank, SmallDog) == Count(h.bank, SmallDog) + 1
  {
    DiceFaces(d1, d2);
    var f := FoxStep(h, d1, d2);
    if WolfRolled(d1, d2) && Count(f.player, BigDog) <= 0 {
      LoseAllOthers(f, WolfPrey, SmallDog);
    }
    BreedSkips(AfterPredators(h, d1, d2), [d1, d2], [d1, d2], GuardOf(h, d1, d2), SmallDog);
  }

  /** Without a small dog the fox leaves at most one rabbit, the rest go to the bank, and rabbits
      do not breed on this roll (gameLogic.js:116-133, 176-177). */
  lemma RollFoxAttack(h: Herds, d1: Kind, d2: Kind)
    requires FoxRolled(d1, d2) && Count(h.player, SmallDog) <= 0
    ensures var c := Count(h.player, Rabbit);
            var left := if c > 1 then 1 else c;
            var r := Roll(h, d1, d2);
            Count(r.player, Rabbit) == left &&
            Count(r.bank, Rabbit) == Count(h.bank, Rabbit) + (c - left)
  {
    var f := FoxStep(h, d1, d2);
    if WolfRolled(d1, d2) && Count(f.player, BigDog) <= 0 {
      LoseAllOthers(f, WolfPrey, Rabbit);
    }
    GuardIsOriginal(h, d1, d2);
    BreedSkips(AfterPredators(h, d1, d2), [d1, d2], [d1, d2], GuardOf(h, d1, d2), Rabbit);
  }

  /** With a defending big dog the wolf takes that dog and nothing else (gameLogic.js:137-143). */
  lemma RollWolfHeldOff(h: Herds, d1: Kind, d2: Kind)
    requires d1 in Dice1 && d2 in Dice2
    requires WolfRolled(d1, d2) && Count(h.player, BigDog) >= 1
    ensures var r := Roll(h, d1, d2);
            Count(r.player, BigDog) == Count(h.player, BigDog) - 1 &&
            Count(r.bank, BigDog) == Count(h.bank, BigDog) + 1
  {
    DiceFaces(d1, d2);
    BreedSkips(AfterPredators(h, d1, d2), [d1, d2], [d1, d2], GuardOf(h, d1, d2), BigDog);
  }

  /** Without a big dog the wolf takes every sheep, pig and cow to the bank, and those kinds do not
      breed on this roll (gameLogic.js:144-166, 178-183). */
  lemma RollWolfAttack(h: Herds, d1: Kind, d2: Kind, k: Kind)
    requires WolfRolled(d1, d2) && Count(h.player, BigDog) <= 0
    requires k == Sheep || k == Pig || k == Cow
    ensures var c := Count(h.player, k);
            var r := Roll(h, d1, d2);
            Count(r.player, k) == (if c > 0 then 0 else c) &&
            Count(r.bank, k) == Count(h.bank, k) + (if c > 0 then c else 0)
  {
    var f := FoxStep(h, d1, d2);
    assert SameKind(h, f, k);
    assert SameKind(h, f, BigDog);
    LoseAllPrey(f, WolfPrey, k);
    GuardIsOriginal(h, d1, d2);
    BreedSkips(AfterPredators(h, d1, d2), [d1, d2], [d1, d2], GuardOf(h, d1, d2), k);
  }

  /** A kind that no die shows and no rolled predator threatens keeps its counts. */
  lemma RollLeavesOthers(h: Herds, d1: Kind, d2: Kind, k: Kind)
    requires k != d1 && k != d2 && !Threatened(k, d1, d2)
    ensures SameKind(h, Roll(h, d1, d2), k)
  {
    PredatorsOthers(h, d1, d2, k);
    BreedSkips(AfterPredators(h, d1, d2), [d1, d2], [d1, d2], GuardOf(h, d1, d2), k);
  }

  /** The predators spare a kind they do not take on this roll. */
  lemma PredatorsSpare(h: Herds, d1: Kind, d2: Kind, k: Kind)
    requires k != SmallDog && k != BigDog
    requires !(k == Rabbit && FoxLoose(h, d1, d2))
    requires !((k == Sheep || k == Pig || k == Cow) && WolfLoose(h, d1, d2))
    ensures SameKind(h, AfterPredators(h, d1, d2), k)
  {
    var f := FoxStep(h, d1, d2);
    FoxStepFacts(h, d1, d2, k);
    FoxStepFacts(h, d1, d2, BigDog);
    assert WolfLoose(f, d1, d2) == WolfLoose(h, d1, d2);
    WolfStepFacts(f, d1, d2, k);
  }

  /** A face shown by one die breeds from the counts before the roll: the player gains
      `min((held + 1) / 2, bank)` and the bank loses as many (gameLogic.js:185-213). */
  lemma RollBreedsOnce(h: Herds, d1: Kind, d2: Kind, k: Kind)
    requires d1 in Dice1 && d2 in Dice2
    requires (d1 == k) != (d2 == k) && k != Wolf && k != Fox
    requires !(k == Rabbit && FoxLoose(h, d1, d2))
    requires !((k == Sheep || k == Pig || k == Cow) && WolfLoose(h, d1, d2))
    ensures var c := Count(h.player, k);
            var gain := Gain(c, 1, Count(h.bank, k));
            var r := Roll(h, d1, d2);
            Count(r.player, k) == c + gain && Count(r.bank, k) == Count(h.bank, k) - gain
  {
    DiceFaces(d1, d2);
    var a := AfterPredators(h, d1, d2);
    var g := GuardOf(h, d1, d2);
    var dice := [d1, d2];
    PredatorsSpare(h, d1, d2, k);
    GuardIsOriginal(h, d1, d2);
    assert !Suppressed(k, g);
    OccurrencesPair(d1, d2, k);
    assert Occurrences(dice, k) == 1;
    BreedPair(a, d1, d2, dice, g);
    var s := BreedStep(a, d1, dice, g);
    var r := BreedStep(s, d2, dice, g);
    assert Roll(h, d1, d2) == r;
    if d1 == k {
      BreedStepGains(a, k, dice, g);
      BreedStepOthers(s, d2, dice, g, k);
    } else {
      BreedStepOthers(a, d1, dice, g, k);
      BreedStepGains(s, k, dice, g);
    }
  }

  /** Both dice showing the same face visit it twice, the second visit seeing the first's gain
      (gameLogic.js:169-172, 198-199). */
  lemma RollBreedsTwice(h: Herds, d1: Kind, d2: Kind)
    requires d1 in Dice1 && d2 in Dice2 && d1 == d2
    ensures d1 == Sheep || d1 == Pig
    ensures var c := Count(h.player, d1);
            var b := Count(h.bank, d1);
            var g1 := Gain(c, 2, b);
            var g2 := Gain(c + g1, 2, b - g1);
            var r := Roll(h, d1, d2);
            Count(r.player, d1) == c + g1 + g2 && Count(r.bank, d1) == b - g1 - g2
  {
    DiceFaces(d1, d2);
    var g := GuardOf(h, d1, d2);
    OccurrencesPair(d1, d2, d1);
    BreedPair(h, d1, d2, [d1, d2], g);
    BreedStepGains(h, d1, [d1, d2], g);
    BreedStepGains(BreedStep(h, d1, [d1, d2], g), d1, [d1, d2], g);
  }

  lemma PredatorsNeverAdd(h: Herds, d1: Kind, d2: Kind, k: Kind)
    ensures Count(AfterPredators(h, d1, d2).player, k) <= Count(h.player, k)
  {
    FoxStepFacts(h, d1, d2, k);
    WolfStepFacts(FoxStep(h, d1, d2), d1, d2, k);
  }

  /** A player's first animal of a kind can come from a roll only when both dice show that kind. */
  lemma RollFirstOnlyFromDouble(h: Herds, d1: Kind, d2: Kind, k: Kind)
    requires Sound(h) && Count(h.player, k) == 0
    requires Count(Roll(h, d1, d2).player, k) > 0
    ensures d1 == k && d2 == k
  {
    var a := AfterPredators(h, d1, d2);
    var g := GuardOf(h, d1, d2);
    var dice := [d1, d2];
    PredatorsNeverAdd(h, d1, d2, k);
    PredatorsKeepSound(h, d1, d2);
    assert Count(a.player, k) == 0;
    OccurrencesPair(d1, d2, k);
    BreedPair(a, d1, d2, dice, g);
    var s := BreedStep(a, d1, dice, g);
    var r := BreedStep(s, d2, dice, g);
    assert Roll(h, d1, d2) == r;
    if !(d1 == k && d2 == k) {
      assert Occurrences(dice, k) <= 1;
      NoPairFromNothing(a, d1, dice, g, k);
      NoPairFromNothing(s, d2, dice, g, k);
      assert false;
    }
  }

  lemma NoPairFromNothing(h: Herds, o: Kind, dice: seq<Kind>, g: Guard, k: Kind)
    requires Count(h.player, k) == 0 && Occurrences(dice, k) <= 1
    ensures Count(BreedStep(h, o, dice, g).player, k) == 0
  {
  }

  /** The dice never give a player a first cow or a first horse: no die pair shows either twice. */
  lemma RollNoFirstCowOrHorse(h: Herds, d1: Kind, d2: Kind, k: Kind)
    requires d1 in Dice1 && d2 in Dice2
    requires Sound(h) && (k == Cow || k == Horse) && Count(h.player, k) == 0
    ensures Count(Roll(h, d1, d2).player, k) == 0
  {
    DiceFaces(d1, d2);
    RollKeepsSound(h, d1, d2);
    if Count(Roll(h, d1, d2).player, k) > 0 {
      RollFirstOnlyFromDouble(h, d1, d2, k);
    }
  }
}
