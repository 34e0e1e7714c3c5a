/** Prices and tiers: app/plans.py. */
module Plans {
  import opened Models

  type Slot = (Tier, Interval)

  /** Every slot a price may be configured for, in the order the catalog is filled. */
  function Slots(purchasable: seq<Tier>): (slots: seq<Slot>)
    ensures |slots| == 2 * |purchasable|
    ensures forall k :: 0 <= k < |slots| ==>
              slots[k] == (purchasable[k / 2], if k % 2 == 0 then Monthly else Annual)
  {
    seq(2 * |purchasable|,
        k requires 0 <= k < 2 * |purchasable| =>
          (purchasable[k / 2], if k % 2 == 0 then Monthly else Annual))
  }

  predicate Configured(configured: map<Slot, string>, s: Slot) {
    s in configured && configured[s] != ""
  }

  /** The catalog after the first `n` slots: a later slot overwrites an earlier one. */
  function Filled(configured: map<Slot, string>, slots: seq<Slot>, n: nat): map<string, Slot>
    requires n <= |slots|
  {
    if n == 0 then map[]
    else
      var before := Filled(configured, slots, n - 1);
      if Configured(configured, slots[n - 1]) then
        before[configured[slots[n - 1]] := slots[n - 1]]
      else before
  }

  function CatalogOf(configured: map<Slot, string>, purchasable: seq<Tier>): map<string, Slot> {
    Filled(configured, Slots(purchasable), 2 * |purchasable|)
  }

  method PriceCatalog(configured: map<Slot, string>, purchasable: seq<Tier>)
    returns (catalog: map<string, Slot>)
    ensures catalog == CatalogOf(configured, purchasable)
    ensures forall p :: p in catalog ==> Configured(configured, catalog[p]) && configured[catalog[p]] == p
  {
    hide Filled, Slots;
    NothingFilled(configured, Slots(purchasable));
    catalog := map[];
    var intervals := [Monthly, Annual];
    ghost var slots := Slots(purchasable);
    for i := 0 to |purchasable|
      invariant catalog == Filled(configured, slots, 2 * i)
    {
      for j := 0 to 2
        invariant catalog == Filled(configured, slots, 2 * i + j)
      {
        var slot := (purchasable[i], intervals[j]);
        SlotAt(purchasable, i, j);
        OneMoreFilled(configured, slots, 2 * i + j);
        if slot in configured && configured[slot] != "" {
          catalog := catalog[configured[slot] := slot];
        }
      }
    }
    forall p | p in catalog ensures Configured(configured, catalog[p]) && configured[catalog[p]] == p {
      EachIsConfigured(configured, slots, |slots|, p);
    }
  }

  lemma NothingFilled(configured: map<Slot, string>, slots: seq<Slot>)
    ensures Filled(configured, slots, 0) == map[]
  {
  }

  lemma OneMoreFilled(configured: map<Slot, string>, slots: seq<Slot>, n: nat)
    requires n < |slots|
    ensures var before, slot := Filled(configured, slots, n), slots[n];
            Filled(configured, slots, n + 1)
            == if slot in configured && configured[slot] != "" then before[configured[slot] := slot] else before
  {
  }

  lemma SlotAt(purchasable: seq<Tier>, i: nat, j: nat)
    requires i < |purchasable| && j < 2
    ensures |Slots(purchasable)| == 2 * |purchasable|
    ensures Slots(purchasable)[2 * i + j] == (purchasable[i], if j == 0 then Monthly else Annual)
  {
    assert (2 * i + j) / 2 == i && (2 * i + j) % 2 == j;
  }

  lemma {:induction false} EachIsConfigured(configured: map<Slot, string>, slots: seq<Slot>, n: nat, price: string)
    requires n <= |slots| && price in Filled(configured, slots, n)
    ensures var slot := Filled(configured, slots, n)[price]; Configured(configured, slot) && configured[slot] == price
  {
    if n > 0 && !(Configured(configured, slots[n - 1]) && configured[slots[n - 1]] == price) {
      EachIsConfigured(configured, slots, n - 1, price);
    }
  }

  predicate Sells(catalog: map<string, Slot>, price: string, slot: Slot) {
    price in catalog && catalog[price] == slot
  }

  /** The first price sold for a slot. Which one does not matter: `AtMostOnePrice`. */
  ghost function PriceIdFor(catalog: map<string, Slot>, slot: Slot): Option<string> {
    if exists p :: Sells(catalog, p, slot) then
      var p :| Sells(catalog, p, slot);
      Some(p)
    else None
  }

  /** A price is in the catalog for the last slot configured with it. */
  lemma {:induction false} FilledByLast(configured: map<Slot, string>, slots: seq<Slot>, n: nat, price: string, slot: Slot)
    requires n <= |slots|
    ensures Sells(Filled(configured, slots, n), price, slot) <==>
            exists k :: 0 <= k < n && slots[k] == slot
                        && Configured(configured, slot) && configured[slot] == price
                        && forall j :: k < j < n && Configured(configured, slots[j]) ==> configured[slots[j]] != price
  {
    if n > 0 {
      FilledByLast(configured, slots, n - 1, price, slot);
      var last := slots[n - 1];
      if Configured(configured, last) && configured[last] == price {
        if slot == last { assert slots[n - 1] == slot; }
      }
    }
  }

  ghost predicate Distinct<T>(xs: seq<T>) {
    forall i, j :: 0 <= i < j < |xs| ==> xs[i] != xs[j]
  }

  /** Checkout sells what is configured, exactly unless a later slot reuses the price. */
  lemma PriceIdRoundTrip(configured: map<Slot, string>, purchasable: seq<Tier>, i: nat)
    requires Distinct(purchasable) && i < 2 * |purchasable|
    requires Configured(configured, Slots(purchasable)[i])
    ensures var slots := Slots(purchasable);
            var catalog := CatalogOf(configured, purchasable);
            PriceIdFor(catalog, slots[i]) ==
            if exists j :: i < j < |slots| && Configured(configured, slots[j])
                           && configured[slots[j]] == configured[slots[i]]
            then None else Some(configured[slots[i]])
  {
    var slots := Slots(purchasable);
    var catalog := CatalogOf(configured, purchasable);
    forall k | 0 <= k < |slots| && slots[k] == slots[i] ensures k == i {
      assert purchasable[k / 2] == purchasable[i / 2];
    }
    forall p ensures Sells(catalog, p, slots[i]) <==>
                     p == configured[slots[i]]
                     && forall j :: i < j < |slots| && Configured(configured, slots[j]) ==> configured[slots[j]] != p
    {
      FilledByLast(configured, slots, |slots|, p, slots[i]);
    }
    assert Sells(catalog, configured[slots[i]], slots[i]) <==>
           forall j :: i < j < |slots| && Configured(configured, slots[j]) ==> configured[slots[j]] != configured[slots[i]];
  }

  /** No slot is sold under two prices, so the order a lookup scans in is irrelevant. */
  lemma AtMostOnePrice(configured: map<Slot, string>, purchasable: seq<Tier>, p: string, q: string, slot: Slot)
    requires var catalog := CatalogOf(configured, purchasable);
             Sells(catalog, p, slot) && Sells(catalog, q, slot)
    ensures p == q
  {
    FilledByLast(configured, Slots(purchasable), 2 * |purchasable|, p, slot);
    FilledByLast(configured, Slots(purchasable), 2 * |purchasable|, q, slot);
  }

  /** What is sold at all: every price that is configured for a slot and not left empty, and nothing else. */
  lemma {:induction false} SoldExactly(configured: map<Slot, string>, slots: seq<Slot>, n: nat, price: string)
    requires n <= |slots|
    ensures price in Filled(configured, slots, n) <==>
            price != "" && exists k :: 0 <= k < n && slots[k] in configured && configured[slots[k]] == price
  {
    if n > 0 {
      SoldExactly(configured, slots, n - 1, price);
      if slots[n - 1] in configured && configured[slots[n - 1]] == price && price != "" {
        assert price in Filled(configured, slots, n);
      }
    }
  }
}
