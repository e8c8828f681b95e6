/**
 * The fixed tables of the game (gameLogic.js:12-62): the animal kinds, the bank's
 * starting stock, the two twelve-face dice and the bank-exchange rules.
 */
module Rules {
  import opened Wrappers

  /** The nine animals of the game: seven that can be held and the two predators. */
  datatype Kind = Rabbit | Sheep | Pig | Cow | Horse | SmallDog | BigDog | Wolf | Fox

  /** A count per kind: a player's herd, the bank's main herd, or the items of a trade offer. */
  type Herd = map<Kind, int>

  /** The count of `k` in `h`; a kind that is not a key counts as 0. */
  function Count(h: Herd, k: Kind): int
  {
    if k in h then h[k] else 0
  }

  predicate NonNegative(h: Herd)
  {
    forall k :: Count(h, k) >= 0
  }

  /** Two herds that hold the same count of every kind (they may differ in which 0 keys they carry). */
  predicate SameCounts(h: Herd, h': Herd)
  {
    forall k :: Count(h, k) == Count(h', k)
  }

  const InitialMainHerd: Herd :=
    map[Rabbit := 60, Sheep := 24, Pig := 20, Cow := 12, Horse := 6, SmallDog := 4, BigDog := 2]

  /** The herd every new player starts with (roomManager.js:42, 64). */
  const EmptyAnimals: Herd :=
    map[Rabbit := 0, Sheep := 0, Pig := 0, Cow := 0, Horse := 0, SmallDog := 0, BigDog := 0]

  const Dice1: seq<Kind> :=
    [Rabbit, Rabbit, Rabbit, Rabbit, Rabbit, Rabbit, Sheep, Sheep, Sheep, Pig, Cow, Wolf]

  const Dice2: seq<Kind> :=
    [Sheep, Sheep, Sheep, Sheep, Sheep, Sheep, Sheep, Sheep, Pig, Pig, Horse, Fox]

  /** `count` of `from` buy `toCount` of `to` from the bank. */
  datatype Rule = Rule(from: Kind, count: int, to: Kind, toCount: int)

  const TradeRules: seq<Rule> := [
    Rule(Rabbit, 6, Sheep, 1),
    Rule(Sheep, 1, Rabbit, 6),
    Rule(Sheep, 2, Pig, 1),
    Rule(Pig, 1, Sheep, 2),
    Rule(Pig, 3, Cow, 1),
    Rule(Cow, 1, Pig, 3),
    Rule(Cow, 2, Horse, 1),
    Rule(Horse, 1, Cow, 2),
    Rule(Sheep, 1, SmallDog, 1),
    Rule(SmallDog, 1, Sheep, 1),
    Rule(Cow, 1, BigDog, 1),
    Rule(BigDog, 1, Cow, 1)
  ]

  predicate Matches(r: Rule, from: Kind, to: Kind)
  {
    r.from == from && r.to == to
  }

  /** The first rule of `rules` for the pair, as `Array.prototype.find` returns it. */
  function FindIn(rules: seq<Rule>, from: Kind, to: Kind): (r: Option<Rule>)
    ensures r.Some? ==> r.value in rules && Matches(r.value, from, to)
    ensures r.None? <==> forall i :: 0 <= i < |rules| ==> !Matches(rules[i], from, to)
    ensures r.Some? ==> exists i :: 0 <= i < |rules| && rules[i] == r.value &&
                          forall j :: 0 <= j < i ==> !Matches(rules[j], from, to)
  {
    if rules == [] then None
    else if Matches(rules[0], from, to) then Some(rules[0])
    else
      var r := FindIn(rules[1..], from, to);
      if r.Some? then
        ghost var i :| 0 <= i < |rules[1..]| && rules[1..][i] == r.value &&
                       forall j :: 0 <= j < i ==> !Matches(rules[1..][j], from, to);
        assert rules[i + 1] == r.value;
        assert forall j :: 0 <= j < i + 1 ==> !Matches(rules[j], from, to) by {
          forall j | 0 <= j < i + 1 ensures !Matches(rules[j], from, to) {
            if j > 0 { assert rules[j] == rules[1..][j - 1]; }
          }
        }
        r
      else
        assert forall i :: 0 <= i < |rules| ==> !Matches(rules[i], from, to) by {
          forall i | 0 <= i < |rules| ensures !Matches(rules[i], from, to) {
            if i > 0 { assert rules[i] == rules[1..][i - 1]; }
          }
        }
        r
  }

  /** The bank-exchange rule for the pair (gameLogic.js:263), written out as a table; `FindIsTable`
      shows it is what `find` returns on `TradeRules`. */
  function FindRule(from: Kind, to: Kind): (r: Option<Rule>)
    ensures r.Some? ==> Matches(r.value, from, to) && WellFormed(r.value)
  {
    match (from, to)
    case (Rabbit, Sheep) => Some(Rule(Rabbit, 6, Sheep, 1))
    case (Sheep, Rabbit) => Some(Rule(Sheep, 1, Rabbit, 6))
    case (Sheep, Pig) => Some(Rule(Sheep, 2, Pig, 1))
    case (Pig, Sheep) => Some(Rule(Pig, 1, Sheep, 2))
    case (Pig, Cow) => Some(Rule(Pig, 3, Cow, 1))
    case (Cow, Pig) => Some(Rule(Cow, 1, Pig, 3))
    case (Cow, Horse) => Some(Rule(Cow, 2, Horse, 1))
    case (Horse, Cow) => Some(Rule(Horse, 1, Cow, 2))
    case (Sheep, SmallDog) => Some(Rule(Sheep, 1, SmallDog, 1))
    case (SmallDog, Sheep) => Some(Rule(SmallDog, 1, Sheep, 1))
    case (Cow, BigDog) => Some(Rule(Cow, 1, BigDog, 1))
    case (BigDog, Cow) => Some(Rule(BigDog, 1, Cow, 1))
    case _ => None
  }

  /** What the table gives is a rule of `TradeRules`, and it gives nothing only for a pair no rule
      names. */
  lemma TableIsRules(from: Kind, to: Kind)
    ensures FindRule(from, to).Some? ==> FindRule(from, to).value in TradeRules
    ensures FindRule(from, to).None? ==>
            forall i :: 0 <= i < |TradeRules| ==> !Matches(TradeRules[i], from, to)
  {
  }

  /** The table is exactly `tradeRules.find` on the pair. */
  lemma FindIsTable(from: Kind, to: Kind)
    ensures FindIn(TradeRules, from, to) == FindRule(from, to)
  {
    TableIsRules(from, to);
    var f := FindIn(TradeRules, from, to);
    var t := FindRule(from, to);
    if t.Some? {
      var i :| 0 <= i < |TradeRules| && TradeRules[i] == t.value;
      assert Matches(TradeRules[i], from, to);
      assert f.Some?;
      RulesAreInverse(f.value);
    }
  }

  /** Every rule trades a positive number of one held kind for a positive number of another. */
  predicate WellFormed(r: Rule)
  {
    r.count >= 1 && r.toCount >= 1 && r.from != r.to &&
    r.from !in {Wolf, Fox} && r.to !in {Wolf, Fox}
  }

  lemma RulesWellFormed()
    ensures forall r :: r in TradeRules ==> WellFormed(r)
  {
  }

  /** No two rules share an ordered pair. */
  lemma RulesUnique()
    ensures forall i, j ::
      (0 <= i < |TradeRules| && 0 <= j < |TradeRules| &&
       Matches(TradeRules[i], TradeRules[j].from, TradeRules[j].to)) ==> i == j
  {
  }

  /** The rule that trades back what `r` trades. */
  function Inverse(r: Rule): Rule
  {
    Rule(r.to, r.toCount, r.from, r.count)
  }

  /** The rule found for a pair of a rule is that rule, and every rule has its exact inverse. */
  lemma RulesAreInverse(r: Rule)
    requires r in TradeRules
    ensures FindRule(r.from, r.to) == Some(r)
    ensures FindRule(r.to, r.from) == Some(Inverse(r))
  {
  }

  /** Die 1 never shows fox, horse or a dog; die 2 never shows wolf, rabbit, cow or a dog. */
  lemma DiceFaces(d1: Kind, d2: Kind)
    requires d1 in Dice1 && d2 in Dice2
    ensures d1 in {Rabbit, Sheep, Pig, Cow, Wolf}
    ensures d2 in {Sheep, Pig, Horse, Fox}
  {
  }
}
