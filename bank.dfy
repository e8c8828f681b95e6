/**
 * Exchanges with the bank (gameLogic.js:257-296): the checks in the order handleExchangeWithBank makes
 * them, and the move of animals when they all pass.
 */
module Bank {
  import opened Wrappers
  import opened Rules
  import opened Dice

  /** Why an exchange is refused; handleExchangeWithBank throws one message per case. */
  datatype ExchangeError = InvalidAmount | NoSuchRule | NotAMultiple | PlayerLacks | BankLacks

  /** How many of `to` the player receives for `amount` of the rule's `from`. */
  function Received(rule: Rule, amount: int): int
    requires rule.count != 0
  {
    amount / rule.count * rule.toCount
  }

  /** The checks made once the rule is known (gameLogic.js:266-285): whole units of at least one,
      the player has the animals, the bank has what they buy. */
  function CheckUnits(h: Herds, from: Kind, n: int, to: Kind, rule: Rule): Result<Rule, ExchangeError>
    requires rule.count >= 1
  {
    if n % rule.count != 0 || n / rule.count < 1 then Failure(NotAMultiple)
    else if Count(h.player, from) < n then Failure(PlayerLacks)
    else if Count(h.bank, to) < Received(rule, n) then Failure(BankLacks)
    else Success(rule)
  }

  /** The checks of gameLogic.js:260-285, in order; `amount` is `None` when `parseInt` gave NaN.
      On success, the rule that applies. */
  function ExchangeCheck(h: Herds, from: Kind, amount: Option<int>, to: Kind): (r: Result<Rule, ExchangeError>)
    ensures r.Success? ==> FindRule(from, to) == Some(r.value) && amount.Some?
  {
    if amount.None? || amount.value <= 0 then Failure(InvalidAmount)
    else
      match FindRule(from, to)
      case None => Failure(NoSuchRule)
      case Some(rule) => CheckUnits(h, from, amount.value, to, rule)
  }

  /** `n` of `from` go to the bank and `total` of `to` come back (gameLogic.js:287-290). */
  function Swap(h: Herds, from: Kind, n: int, to: Kind, total: int): Herds
  {
    FromBank(ToBank(h, from, n), to, total)
  }

  function Exchange(h: Herds, from: Kind, amount: Option<int>, to: Kind): Result<Herds, ExchangeError>
  {
    match ExchangeCheck(h, from, amount, to)
    case Failure(e) => Failure(e)
    case Success(rule) => Success(Swap(h, from, amount.value, to, Received(rule, amount.value)))
  }

  lemma SwapCounts(h: Herds, from: Kind, n: int, to: Kind, total: int)
    requires from != to
    ensures var r := Swap(h, from, n, to, total);
            Count(r.player, from) == Count(h.player, from) - n &&
            Count(r.bank, from) == Count(h.bank, from) + n &&
            Count(r.player, to) == Count(h.player, to) + total &&
            Count(r.bank, to) == Count(h.bank, to) - total
  {
  }

  lemma SwapOthers(h: Herds, from: Kind, n: int, to: Kind, total: int, k: Kind)
    requires k != from && k != to
    ensures SameKind(h, Swap(h, from, n, to, total), k)
  {
  }

  lemma MulBounds(a: int, c: int)
    requires c >= 1
    ensures a >= 1 ==> a * c >= c
    ensures a <= -1 ==> a * c <= -c
  {
  }

  /** A positive amount that is a multiple of the unit is at least one whole unit. */
  lemma UnitsFacts(n: int, count: int, toCount: int)
    requires count >= 1 && toCount >= 1 && n > 0 && n % count == 0
    ensures n / count >= 1 && n / count * count == n
    ensures n / count * toCount >= toCount
  {
    var u := n / count;
    assert n == u * count + n % count;
    MulBounds(u, count);
    MulBounds(u, toCount);
  }

  /** Admissible amounts for a known rule: a multiple of its unit that the player holds and whose
      price the bank can pay. */
  predicate Admits(h: Herds, from: Kind, n: int, to: Kind, rule: Rule)
    requires rule.count >= 1
  {
    n % rule.count == 0 && Count(h.player, from) >= n && Count(h.bank, to) >= Received(rule, n)
  }

  lemma CheckUnitsIff(h: Herds, from: Kind, n: int, to: Kind, rule: Rule)
    requires rule.count >= 1 && rule.toCount >= 1 && n > 0
    ensures CheckUnits(h, from, n, to, rule).Success? <==> Admits(h, from, n, to, rule)
    ensures CheckUnits(h, from, n, to, rule) == Failure(NotAMultiple) <==> n % rule.count != 0
    ensures CheckUnits(h, from, n, to, rule) == Failure(PlayerLacks) <==>
            n % rule.count == 0 && Count(h.player, from) < n
  {
    if n % rule.count == 0 {
      UnitsFacts(n, rule.count, rule.toCount);
    }
  }

  /** An exchange goes through exactly when the amount is a positive multiple of the unit of the
      pair's rule, the player holds that amount, and the bank holds what it buys
      (gameLogic.js:260-285). */
  lemma ExchangeSucceedsIff(h: Herds, from: Kind, amount: Option<int>, to: Kind)
    ensures Exchange(h, from, amount, to).Success? <==>
            amount.Some? && amount.value > 0 && FindRule(from, to).Some? &&
            Admits(h, from, amount.value, to, FindRule(from, to).value)
  {
    if amount.Some? && amount.value > 0 {
      var found := FindRule(from, to);
      if found.Some? {
        CheckUnitsIff(h, from, amount.value, to, found.value);
        assert ExchangeCheck(h, from, amount, to) == CheckUnits(h, from, amount.value, to, found.value);
      }
    }
  }

  /** A refused exchange reports the first check that fails (gameLogic.js:261-285). */
  lemma ExchangeErrors(h: Herds, from: Kind, amount: Option<int>, to: Kind)
    ensures var r := Exchange(h, from, amount, to);
            (r == Failure(InvalidAmount) <==> amount.None? || amount.value <= 0) &&
            (r == Failure(NoSuchRule) <==>
               amount.Some? && amount.value > 0 && FindRule(from, to).None?) &&
            (r == Failure(NotAMultiple) <==>
               amount.Some? && amount.value > 0 && FindRule(from, to).Some? &&
               amount.value % FindRule(from, to).value.count != 0) &&
            (r == Failure(PlayerLacks) <==>
               amount.Some? && amount.value > 0 && FindRule(from, to).Some? &&
               amount.value % FindRule(from, to).value.count == 0 &&
               Count(h.player, from) < amount.value)
  {
    if amount.Some? && amount.value > 0 {
      var found := FindRule(from, to);
      if found.Some? {
        CheckUnitsIff(h, from, amount.value, to, found.value);
        assert ExchangeCheck(h, from, amount, to) == CheckUnits(h, from, amount.value, to, found.value);
      }
    }
  }

  /** What a successful exchange moves: `amount` of `from` to the bank and `units * toCount` of
      `to` to the player (gameLogic.js:272, 287-290). */
  lemma ExchangeMoves(h: Herds, from: Kind, amount: Option<int>, to: Kind)
    requires Exchange(h, from, amount, to).Success?
    ensures FindRule(from, to).Some? && amount.Some?
    ensures var rule := FindRule(from, to).value;
            var n := amount.value;
            var total := Received(rule, n);
            var r := Exchange(h, from, amount, to).value;
            n > 0 && n % rule.count == 0 && total >= rule.toCount &&
            r == Swap(h, from, n, to, total) &&
            Count(r.player, from) == Count(h.player, from) - n &&
            Count(r.bank, from) == Count(h.bank, from) + n &&
            Count(r.player, to) == Count(h.player, to) + total &&
            Count(r.bank, to) == Count(h.bank, to) - total
  {
    var rule := FindRule(from, to).value;
    var n := amount.value;
    UnitsFacts(n, rule.count, rule.toCount);
    SwapCounts(h, from, n, to, Received(rule, n));
  }

  /** An exchange touches only the two kinds it names. */
  lemma ExchangeLeavesOthers(h: Herds, from: Kind, amount: Option<int>, to: Kind, k: Kind)
    requires Exchange(h, from, amount, to).Success? && k != from && k != to
    ensures SameKind(h, Exchange(h, from, amount, to).value, k)
  {
    var rule := FindRule(from, to).value;
    SwapOthers(h, from, amount.value, to, Received(rule, amount.value), k);
  }

  /** An exchange only moves animals between the player and the bank. */
  lemma ExchangeConserves(h: Herds, from: Kind, amount: Option<int>, to: Kind)
    requires Exchange(h, from, amount, to).Success?
    ensures Conserved(h, Exchange(h, from, amount, to).value)
  {
    ExchangeMoves(h, from, amount, to);
    var r := Exchange(h, from, amount, to).value;
    forall k ensures Total(r, k) == Total(h, k) {
      if k != from && k != to {
        ExchangeLeavesOthers(h, from, amount, to, k);
      }
    }
  }

  /** No count goes negative in an exchange: the checks come before the move. */
  lemma ExchangeKeepsSound(h: Herds, from: Kind, amount: Option<int>, to: Kind)
    requires Sound(h) && Exchange(h, from, amount, to).Success?
    ensures Sound(Exchange(h, from, amount, to).value)
  {
    ExchangeMoves(h, from, amount, to);
    var r := Exchange(h, from, amount, to).value;
    forall k ensures Count(r.player, k) >= 0 && Count(r.bank, k) >= 0 {
      assert Count(h.player, k) >= 0 && Count(h.bank, k) >= 0;
      if k != from && k != to {
        ExchangeLeavesOthers(h, from, amount, to, k);
      }
    }
  }

  /** What `n` animals of kind `k` are worth in rabbits at the bank's rates. */
  function Weigh(k: Kind, n: int): int
  {
    match k
    case Rabbit => n
    case Sheep => 6 * n
    case Pig => 12 * n
    case Cow => 36 * n
    case Horse => 72 * n
    case SmallDog => 6 * n
    case BigDog => 36 * n
    case Wolf => 0
    case Fox => 0
  }

  /** The seven kinds a herd can hold. */
  const HeldKinds: seq<Kind> := [Rabbit, Sheep, Pig, Cow, Horse, SmallDog, BigDog]

  function ValueOf(h: Herd, kinds: seq<Kind>): int
  {
    if kinds == [] then 0 else Weigh(kinds[0], Count(h, kinds[0])) + ValueOf(h, kinds[1..])
  }

  /** What a herd is worth in rabbits. */
  function Value(h: Herd): int
  {
    ValueOf(h, HeldKinds)
  }

  /** Every rule of the table trades at equal worth. */
  lemma RuleKeepsWorth(rule: Rule)
    requires rule in TradeRules
    ensures Weigh(rule.from, rule.count) == Weigh(rule.to, rule.toCount)
  {
  }

  lemma WeighAdds(k: Kind, a: int, b: int)
    ensures Weigh(k, a + b) == Weigh(k, a) + Weigh(k, b)
  {
  }

  lemma WeighUnits(k: Kind, u: int, c: int)
    ensures Weigh(k, u * c) == u * Weigh(k, c)
  {
  }

  lemma {:induction false} ValueOfSet(p: Herd, k: Kind, v: int, kinds: seq<Kind>)
    requires forall i, j :: 0 <= i < j < |kinds| ==> kinds[i] != kinds[j]
    ensures ValueOf(p[k := v], kinds) ==
            ValueOf(p, kinds) + (if k in kinds then Weigh(k, v - Count(p, k)) else 0)
  {
    if kinds != [] {
      ValueOfSet(p, k, v, kinds[1..]);
      if kinds[0] == k {
        assert k !in kinds[1..] by {
          forall i | 0 <= i < |kinds[1..]| ensures kinds[1..][i] != k {
            assert kinds[1..][i] == kinds[i + 1];
          }
        }
        WeighAdds(k, Count(p, k), v - Count(p, k));
      } else {
        assert (k in kinds) == (k in kinds[1..]);
      }
    }
  }

  /** Setting the count of one kind changes what a herd is worth by the worth of the difference. */
  lemma ValueSet(p: Herd, k: Kind, v: int)
    ensures Value(p[k := v]) == Value(p) + Weigh(k, v - Count(p, k))
  {
    ValueOfSet(p, k, v, HeldKinds);
  }

  /** Moving animals of equal worth both ways changes neither side's worth. */
  lemma SwapKeepsValue(h: Herds, from: Kind, n: int, to: Kind, total: int)
    requires Weigh(from, n) == Weigh(to, total)
    ensures Value(Swap(h, from, n, to, total).player) == Value(h.player)
    ensures Value(Swap(h, from, n, to, total).bank) == Value(h.bank)
  {
    var t := ToBank(h, from, n);
    ValueSet(h.player, from, Count(h.player, from) - n);
    ValueSet(h.bank, from, Count(h.bank, from) + n);
    ValueSet(t.player, to, Count(t.player, to) + total);
    ValueSet(t.bank, to, Count(t.bank, to) - total);
    WeighAdds(from, n, -n);
    WeighAdds(to, total, -total);
    assert Weigh(from, 0) == 0 && Weigh(to, 0) == 0;
  }

  /** No exchange changes what the player's herd, or the bank's, is worth. */
  lemma ExchangeKeepsValue(h: Herds, from: Kind, amount: Option<int>, to: Kind)
    requires Exchange(h, from, amount, to).Success?
    ensures Value(Exchange(h, from, amount, to).value.player) == Value(h.player)
    ensures Value(Exchange(h, from, amount, to).value.bank) == Value(h.bank)
  {
    ExchangeMoves(h, from, amount, to);
    var rule := FindRule(from, to).value;
    var n := amount.value;
    RuleKeepsWorth(rule);
    UnitsFacts(n, rule.count, rule.toCount);
    var u := n / rule.count;
    var total := Received(rule, n);
    WeighUnits(from, u, rule.count);
    WeighUnits(to, u, rule.toCount);
    SwapKeepsValue(h, from, n, to, total);
  }

  /** `u` whole units of size `c` divide back into `u` units. */
  lemma ExactUnits(u: int, c: int)
    requires c >= 1
    ensures (u * c) % c == 0 && (u * c) / c == u
  {
    var q := (u * c) / c;
    var r := (u * c) % c;
    assert (u - q) * c == r;
    MulBounds(u - q, c);
  }

  /** The inverse exchange undoes a successful one: the rule table is closed under reversal. */
  lemma ExchangeRoundTrip(h: Herds, from: Kind, amount: Option<int>, to: Kind)
    requires Sound(h) && Exchange(h, from, amount, to).Success?
    ensures FindRule(from, to).Some? && amount.Some?
    ensures var back := Some(Received(FindRule(from, to).value, amount.value));
            var h' := Exchange(h, from, amount, to).value;
            Exchange(h', to, back, from).Success? &&
            SameCounts(Exchange(h', to, back, from).value.player, h.player) &&
            SameCounts(Exchange(h', to, back, from).value.bank, h.bank)
  {
    ExchangeMoves(h, from, amount, to);
    var rule := FindRule(from, to).value;
    RulesAreInverse(rule);
    var inv := FindRule(to, from).value;
    var n := amount.value;
    UnitsFacts(n, rule.count, rule.toCount);
    var u := n / rule.count;
    var total := Received(rule, n);
    ExactUnits(u, inv.count);
    assert Received(inv, total) == n;
    assert Count(h.player, to) >= 0 && Count(h.bank, from) >= 0;
    var h' := Exchange(h, from, amount, to).value;
    ExchangeSucceedsIff(h', to, Some(total), from);
    ExchangeMoves(h', to, Some(total), from);
    var h'' := Exchange(h', to, Some(total), from).value;
    forall k ensures Count(h''.player, k) == Count(h.player, k) && Count(h''.bank, k) == Count(h.bank, k) {
      if k != from && k != to {
        ExchangeLeavesOthers(h, from, amount, to, k);
        ExchangeLeavesOthers(h', to, Some(total), from, k);
      }
    }
  }
}
