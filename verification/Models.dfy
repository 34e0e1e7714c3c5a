/** The values the whole service shares: tiers, statuses, table rows, and what Stripe says.

    Every instant is a whole number of microseconds since the Unix epoch, in UTC, which is the
    resolution of the datetimes the service stores and compares.
 */
module Models {
  datatype Option<+T> = None | Some(value: T) {
    function GetOr(default: T): T {
      if Some? then value else default
    }
  }

  type Instant = int

  const SECOND: int := 1_000_000
  const DAY: int := 86_400_000_000

  datatype Tier = Free | Plus | Pro | Enterprise

  function Rank(t: Tier): nat {
    match t
    case Free => 0
    case Plus => 1
    case Pro => 2
    case Enterprise => 3
  }

  function HigherTier(a: Tier, b: Tier): Tier {
    if Rank(a) >= Rank(b) then a else b
  }

  /** The tiers ascend, and of two the higher counts. */
  lemma TiersAscend(a: Tier, b: Tier)
    ensures Rank(Tier.Free) < Rank(Plus) < Rank(Pro) < Rank(Enterprise)
    ensures HigherTier(a, b) in {a, b} && Rank(a) <= Rank(HigherTier(a, b)) && Rank(b) <= Rank(HigherTier(a, b))
  {
  }

  datatype Interval = Monthly | Annual

  datatype Status = NoSubscription | Trialing | Active | PastDue | Incomplete | Paused {
    predicate GrantsAccess() {
      Trialing? || Active? || PastDue?
    }
  }

  /** What a discount stores is copied field by field and never looked into. */
  type Discount = string

  datatype RemotePrice = RemotePrice(id: string, interval: Option<Interval>, tier: Option<string>)

  datatype RemoteSubscription = RemoteSubscription(
    id: string,
    customerId: Option<string>,
    status: Status,
    providerStatus: string,
    ended: bool,
    price: Option<RemotePrice>,
    periodStart: Option<Instant>,
    periodEnd: Option<Instant>,
    cancelAtPeriodEnd: bool,
    trialEnd: Option<Instant>,
    discount: Option<Discount>,
    metadata: map<string, string>)

  /** The ten columns that are copied from Stripe and from nowhere else. */
  datatype MirroredState = MirroredState(
    tier: Tier,
    status: Status,
    subscriptionId: Option<string>,
    priceId: Option<string>,
    interval: Option<Interval>,
    periodStart: Option<Instant>,
    periodEnd: Option<Instant>,
    cancelAtPeriodEnd: bool,
    trialEnd: Option<Instant>,
    discount: Option<Discount>)

  const NO_SUBSCRIPTION: MirroredState :=
    MirroredState(Tier.Free, NoSubscription, None, None, None, None, None, false, None, None)

  /** One row of the subscriptions table. */
  datatype Row = Row(
    userId: string,
    customerId: Option<string>,
    mirror: MirroredState,
    pastDueSince: Option<Instant>,
    disputedAt: Option<Instant>)

  function FreshRow(userId: string): Row {
    Row(userId, None, NO_SUBSCRIPTION, None, None)
  }

  datatype Grant = Grant(
    id: nat,
    userId: string,
    tier: Tier,
    expiresAt: Option<Instant>,
    revokedAt: Option<Instant>)

  datatype Audit = Audit(
    userId: string,
    fromTier: Option<Tier>,
    toTier: Option<Tier>,
    fromStatus: Option<Status>,
    toStatus: Option<Status>,
    reason: string,
    eventId: Option<string>,
    createdAt: Instant)

  datatype EventStatus = Processing | Processed | Failed

  /** The durable tables, as one transaction sees them. */
  datatype Db = Db(
    rows: seq<Row>,
    grants: seq<Grant>,
    audits: seq<Audit>,
    events: map<string, EventStatus>)

  datatype Source = FromSubscription | FromGrant | FromDefault

  /** The read path's answer. The display name, features and quotas are a function of `tier`. */
  datatype Entitlements = Entitlements(
    userId: string,
    tier: Tier,
    status: Status,
    source: Source,
    periodStart: Option<Instant>,
    periodEnd: Option<Instant>,
    cancelAtPeriodEnd: bool,
    graceEndsAt: Option<Instant>)
}
