/**
 * Peer-trade helpers (gameLogic.js:238-255): whether a player holds a set of items, and the
 * transfer of the items from one player's animals to another's.
 */
module Trading {
  import opened Wrappers
  import opened Rules

  /** `playerHasAnimals`: items are present, and for every kind they name the holder has at least
      that many, a kind the holder lacks counting as 0. Absent items (`null`/`undefined`) fail. */
  predicate PlayerHasAnimals(animals: Herd, items: Option<Herd>): (has: bool)
    ensures has ==> items.Some? && forall k :: k in items.value && items.value[k] > 0 ==> Count(animals, k) > 0
    ensures items == Some(map[]) ==> has
  {
    items.Some? && forall k :: k in items.value ==> Count(animals, k) >= items.value[k]
  }

  /** Every quantity named is positive (server.js:233-242); a `for...in` over absent items checks
      nothing. */
  predicate AllPositive(items: Option<Herd>)
  {
    items.None? || forall k :: k in items.value ==> items.value[k] > 0
  }

  /** `h` after the kinds of `ks` have been debited by their quantity in `items`. */
  function DebitOn(h: Herd, items: Herd, ks: set<Kind>): Herd
    requires ks <= items.Keys
  {
    map k | k in h.Keys + ks :: if k in ks then Count(h, k) - items[k] else h[k]
  }

  /** `h` after the kinds of `ks` have been credited with their quantity in `items`. */
  function CreditOn(h: Herd, items: Herd, ks: set<Kind>): Herd
    requires ks <= items.Keys
  {
    map k | k in h.Keys + ks :: if k in ks then Count(h, k) + items[k] else h[k]
  }

  function Debited(h: Herd, items: Herd): Herd
  {
    DebitOn(h, items, items.Keys)
  }

  function Credited(h: Herd, items: Herd): Herd
  {
    CreditOn(h, items, items.Keys)
  }

  /** `transferAnimals` (gameLogic.js:248-255): a `for...in` over the item kinds, each taking its
      quantity from `from` and giving it to `to`; absent items move nothing. */
  method TransferAnimals(from: Herd, to: Herd, items: Option<Herd>) returns (from': Herd, to': Herd)
    ensures items.None? ==> from' == from && to' == to
    ensures items.Some? ==> from' == Debited(from, items.value) && to' == Credited(to, items.value)
  {
    from', to' := from, to;
    if items.None? {
      return;
    }
    var it := items.value;
    var todo := it.Keys;
    ghost var done: set<Kind> := {};
    assert from == DebitOn(from, it, {});
    assert to == CreditOn(to, it, {});
    while todo != {}
      invariant done + todo == it.Keys && done !! todo
      invariant from' == DebitOn(from, it, done)
      invariant to' == CreditOn(to, it, done)
      decreases todo
    {
      var k :| k in todo;
      var amount := it[k];
      DebitStep(from, it, done, k);
      CreditStep(to, it, done, k);
      from' := from'[k := Count(from', k) - amount];
      to' := to'[k := Count(to', k) + amount];
      todo := todo - {k};
      done := done + {k};
    }
  }

  lemma DebitStep(h: Herd, items: Herd, done: set<Kind>, k: Kind)
    requires done <= items.Keys && k in items && k !in done
    ensures var d := DebitOn(h, items, done);
            d[k := Count(d, k) - items[k]] == DebitOn(h, items, done + {k})
  {
    var d := DebitOn(h, items, done);
    assert Count(d, k) == Count(h, k);
  }

  lemma CreditStep(h: Herd, items: Herd, done: set<Kind>, k: Kind)
    requires done <= items.Keys && k in items && k !in done
    ensures var c := CreditOn(h, items, done);
            c[k := Count(c, k) + items[k]] == CreditOn(h, items, done + {k})
  {
    var c := CreditOn(h, items, done);
    assert Count(c, k) == Count(h, k);
  }

  lemma DebitedCount(h: Herd, items: Herd, k: Kind)
    ensures Count(Debited(h, items), k) == Count(h, k) - Count(items, k)
  {
  }

  lemma CreditedCount(h: Herd, items: Herd, k: Kind)
    ensures Count(Credited(h, items), k) == Count(h, k) + Count(items, k)
  {
  }

  /** A transfer keeps the two players' total of every kind. */
  lemma TransferConserves(from: Herd, to: Herd, items: Herd, k: Kind)
    ensures Count(Debited(from, items), k) + Count(Credited(to, items), k) == Count(from, k) + Count(to, k)
  {
    DebitedCount(from, items, k);
    CreditedCount(to, items, k);
  }

  /** Holding the items is exactly what keeps every debited kind from going negative. */
  lemma HasIffDebitSound(animals: Herd, items: Herd)
    ensures PlayerHasAnimals(animals, Some(items)) <==>
            forall k :: k in items ==> Count(Debited(animals, items), k) >= 0
  {
    forall k | k in items
      ensures Count(Debited(animals, items), k) == Count(animals, k) - items[k]
    {
      DebitedCount(animals, items, k);
    }
  }

  /** A holder with no negative count keeps none after debiting items it holds. */
  lemma HasKeepsNonNegative(animals: Herd, items: Herd)
    requires NonNegative(animals) && PlayerHasAnimals(animals, Some(items))
    ensures NonNegative(Debited(animals, items))
  {
    forall k ensures Count(Debited(animals, items), k) >= 0 {
      DebitedCount(animals, items, k);
      assert Count(animals, k) >= 0;
    }
  }

  /** Crediting positive items never makes a count negative. */
  lemma CreditKeepsNonNegative(animals: Herd, items: Herd)
    requires NonNegative(animals) && AllPositive(Some(items))
    ensures NonNegative(Credited(animals, items))
  {
    forall k ensures Count(Credited(animals, items), k) >= 0 {
      CreditedCount(animals, items, k);
      assert Count(animals, k) >= 0;
    }
  }

  /** Transferring the same items back restores every count. */
  lemma TransferRoundTrip(from: Herd, to: Herd, items: Herd)
    ensures SameCounts(Credited(Debited(from, items), items), from)
    ensures SameCounts(Debited(Credited(to, items), items), to)
  {
    forall k ensures Count(Credited(Debited(from, items), items), k) == Count(from, k) {
      CreditedCount(Debited(from, items), items, k);
      DebitedCount(from, items, k);
    }
    forall k ensures Count(Debited(Credited(to, items), items), k) == Count(to, k) {
      DebitedCount(Credited(to, items), items, k);
      CreditedCount(to, items, k);
    }
  }
}
