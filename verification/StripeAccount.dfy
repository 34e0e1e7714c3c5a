/** What this service writes to Stripe: the two modifying calls of app/stripe_client.py. */
module StripeAccount {
  import opened Subscriptions
  import Billing

  function Merged(kept: map<string, string>, changes: map<string, string>): map<string, string> {
    (kept + changes) - (set k | k in changes && changes[k] == "")
  }

  /** Merges keys into one subscription's metadata; an empty string removes a key. */
  function SetMetadata(stripe: Stripe, id: string, changes: map<string, string>): Stripe {
    stripe.(metadata :=
      stripe.metadata[id := Merged(if id in stripe.metadata then stripe.metadata[id] else map[], changes)])
  }

  /** What Stripe holds under one key of one subscription; empty when it holds nothing. */
  function ValueOf(stripe: Stripe, id: string, key: string): string {
    if id in stripe.metadata && key in stripe.metadata[id] then stripe.metadata[id][key] else ""
  }

  /** Afterwards every key that was named reads as it was set, and is gone if it was set to nothing; every other
      one reads as before. */
  lemma SettingMeans(stripe: Stripe, id: string, changes: map<string, string>)
    ensures forall other, key :: ValueOf(SetMetadata(stripe, id, changes), other, key)
                                 == if other == id && key in changes then changes[key] else ValueOf(stripe, other, key)
    ensures forall key :: key in changes && changes[key] == "" ==> key !in SetMetadata(stripe, id, changes).metadata[id]
  {
  }

  /** Stripe's list with one subscription scheduled to end with its period, or no longer. */
  function Scheduled(subs: seq<Billing.RawSubscription>, id: string, value: bool): seq<Billing.RawSubscription> {
    seq(|subs|, i requires 0 <= i < |subs| =>
      if subs[i].id == id then subs[i].(cancelAtPeriodEnd := value) else subs[i])
  }

  function SetCancelAtPeriodEnd(stripe: Stripe, id: string, value: bool): Stripe {
    stripe.(subs := map c | c in stripe.subs :: Scheduled(stripe.subs[c], id, value))
  }

  class Account {
    var state: Stripe

    constructor (state: Stripe)
      ensures this.state == state
    {
      this.state := state;
    }

    /** Afterwards every key that was named reads as it was set, and every other key of this and of every
        other subscription reads as before, so what is not this service's is left alone. */
    method SetSubscriptionMetadata(id: string, changes: map<string, string>, fails: bool) returns (raised: bool)
      modifies this
      ensures raised == fails
      ensures raised ==> state == old(state)
      ensures !raised ==>
                && state == SetMetadata(old(state), id, changes)
                && state.subs == old(state.subs) && state.users == old(state.users)
                && (forall key :: key in changes ==> ValueOf(state, id, key) == changes[key])
                && (forall other, key :: other != id || key !in changes ==>
                      ValueOf(state, other, key) == ValueOf(old(state), other, key))
    {
      if !fails {
        state := SetMetadata(state, id, changes);
      }
      return fails;
    }

    /** Afterwards the named subscription's flag is what was asked for, wherever it is listed, and no other
        field, no other subscription, no list and no metadata differs. */
    method ScheduleCancel(id: string, value: bool, fails: bool) returns (raised: bool)
      modifies this
      ensures raised == fails
      ensures raised ==> state == old(state)
      ensures !raised ==>
                && state == SetCancelAtPeriodEnd(old(state), id, value)
                && state.users == old(state.users) && state.metadata == old(state.metadata)
                && state.subs.Keys == old(state.subs.Keys)
                && forall c :: c in state.subs ==> OnlyTheFlagMoved(old(state.subs)[c], state.subs[c], id, value)
    {
      if !fails {
        state := SetCancelAtPeriodEnd(state, id, value);
      }
      return fails;
    }
  }

  ghost predicate OnlyTheFlagMoved(before: seq<Billing.RawSubscription>, after: seq<Billing.RawSubscription>, id: string, value: bool) {
    && |after| == |before|
    && forall k :: 0 <= k < |after| ==>
         && after[k].(cancelAtPeriodEnd := before[k].cancelAtPeriodEnd) == before[k]
         && after[k].cancelAtPeriodEnd == if before[k].id == id then value else before[k].cancelAtPeriodEnd
  }

  /** Setting keys and then emptying them again takes back whatever they were, and nothing else. */
  lemma EmptyingTakesBack(stripe: Stripe, id: string, changes: map<string, string>, empties: map<string, string>)
    requires empties.Keys == changes.Keys && forall k :: k in empties ==> empties[k] == ""
    ensures var after := SetMetadata(SetMetadata(stripe, id, changes), id, empties);
            forall other, key :: ValueOf(after, other, key)
                                 == if other == id && key in changes then "" else ValueOf(stripe, other, key)
  {
  }
}
