/** From what happens outside to what a user may do: theorems that cross the whole service.

    A webhook that is processed, a comp and its revocation, each followed to the answer of the read path.
 */
module Access {
  import opened Models
  import opened Subscriptions
  import opened Admin
  import opened EntitlementReads
  import opened Writers
  import Webhooks
  import Billing

  /** After a comp its user has its tier, or what they had if that is more, until it expires; nobody else's
      answer moves, and a comp to free is refused. */
  lemma ACompGivesItsTier(settings: Settings, db: Db, catalog: Catalog, userId: string, tier: Tier, expiresAt: Option<Instant>,
                          now: Instant, other: string, t: Instant)
    ensures var after := Writers.Apply(db, catalog, Comp(userId, tier, expiresAt), now);
            var before := ResolveFromDb(settings, db, other, t).tier;
            && (tier == Tier.Free ==> CreateGrant(db, userId, tier, expiresAt, now).None? && after == db)
            && (tier != Tier.Free ==>
                  ResolveFromDb(settings, after, other, t).tier
                  == if other == userId && (expiresAt.None? || t < expiresAt.value) then HigherTier(before, tier) else before)
  {
    if tier != Tier.Free {
      var found := Find(db.rows, ByUser(other));
      GrantGivesItsTier(settings, if found.Some? then Some(db.rows[found.value]) else None, db.grants,
                        Grant(|db.grants|, userId, tier, expiresAt, None), other, t);
    }
  }

  /** Taking a comp back leaves everybody the answer they had before it, at every instant, and taking it back
      again without having seen that changes nobody's answer either. */
  lemma RevokingUndoesAComp(settings: Settings, db: Db, catalog: Catalog, userId: string, tier: Tier, expiresAt: Option<Instant>,
                            now: Instant, later: Instant, last: Instant, other: string, t: Instant)
    requires tier != Tier.Free
    ensures var given := Writers.Apply(db, catalog, Comp(userId, tier, expiresAt), now);
            var taken := Writers.Apply(given, catalog, Revoke(|db.grants|), later);
            var again := Writers.Apply(taken, catalog, LateRevokeOf(|db.grants|), last);
            && given != db && taken != given && again != taken
            && ResolveFromDb(settings, taken, other, t) == ResolveFromDb(settings, db, other, t)
            && ResolveFromDb(settings, again, other, t) == ResolveFromDb(settings, db, other, t)
  {
    var given := Writers.Apply(db, catalog, Comp(userId, tier, expiresAt), now);
    var taken := Writers.Apply(given, catalog, Revoke(|db.grants|), later);
    var again := Writers.Apply(taken, catalog, LateRevokeOf(|db.grants|), last);
    RevokedGivesNothing(given.grants, |db.grants|, later, other, t);
    RevokedGivesNothing(given.grants, |db.grants|, last, other, t);
    assert given.grants[..|db.grants|] + given.grants[|db.grants| + 1..] == db.grants;
    assert taken.grants[|db.grants|] != given.grants[|db.grants|];
    assert again.grants == given.grants[|db.grants| := given.grants[|db.grants|].(revokedAt := Some(last))];
    assert |given.audits| == |db.audits| + 1 && |again.audits| == |taken.audits| + 1;
  }

  /** What a subscription as Stripe lists it is worth at an instant, to a row whose dunning window began then. */
  predicate PaysFor(settings: Settings, catalog: Catalog, raw: Option<Billing.RawSubscription>, start: Instant, t: Instant, tier: Tier) {
    && raw.Some? && raw.value.items != [] && PriceGives(catalog, raw.value.items[0].price, tier)
    && (raw.value.status in {"active", "trialing"}
        || (raw.value.status in {"past_due", "unpaid"} && t < start + settings.grace))
  }

  /** From a webhook to the answer. Once a delivery about a customer with a row is handled, its user has, at
      every instant from then on until something else is written, the paid tier that the customer's current
      subscription buys, exactly while that pays: always when active or trialing, and to the end of the grace
      period when a payment has failed; or a grant, where that is more. */
  lemma AWebhookGrantsWhatIsPaid(settings: Settings, db: Db, catalog: Catalog, d: Webhooks.Delivery, k: nat, customer: string,
                                 t: Instant, tier: Tier)
    requires UniqueRows(db.rows) && k < |db.rows| && db.rows[k].customerId == Some(customer) && Webhooks.IsAbout(d.event, customer)
    requires Webhooks.Apply(db, catalog, d).1.Handled? && tier != Tier.Free
    ensures var after, user := Webhooks.Apply(db, catalog, d).0, db.rows[k].userId;
            var pays := PaysFor(settings, catalog, CurrentOf(d.stripe, customer), db.rows[k].pastDueSince.GetOr(d.now), t, tier);
            var granted := ActiveGrantTier(db.grants, user, t);
            var e := ResolveFromDb(settings, after, user, t);
            && (granted.None? ==> (e.tier == tier <==> pays))
            && (granted.Some? && Rank(granted.value) < Rank(tier) ==> (e.tier == tier <==> pays))
            && (pays ==> Rank(e.tier) >= Rank(tier))
  {
    hide Webhooks.Deliver, Project;
    var after, row, raw := Webhooks.Apply(db, catalog, d).0, db.rows[k], CurrentOf(d.stripe, customer);
    Webhooks.DeliverySyncs(db, catalog, d, k, customer);
    FindIs(after.rows, ByUser(row.userId), k);
    RowPaysExactly(settings, after.rows[k], t);
    AnswerIsTheHigher(settings, row.userId, Some(after.rows[k]), db.grants, t);
    if raw.Some? {
      PaidTierExactly(catalog, raw.value, d.stripe.metadata, tier);
      StatusExactly(catalog, raw.value, d.stripe.metadata);
    } else {
      NothingListedNothingMirrored(catalog);
    }
  }

  lemma NothingListedNothingMirrored(catalog: Catalog)
    ensures Project(catalog, None) == NO_SUBSCRIPTION
  {
  }
}
