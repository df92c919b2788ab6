/** Core records of the loyalty "dual-wallet" program: brands, tiers,
    customers and the audit transactions produced by balance adjustments.

    Numbers: point balances, tier entry points and adjustment amounts are
    whole points (`int`); the brand earning rate and the tier multiplier are
    ratios (`real`). Timestamps are milliseconds since the epoch (`int`). */
module LoyaltyTypes {

  /** An optional value, used where the source returns `null` or reads a
      form field that may be missing. */
  datatype Option<+T> = None | Some(value: T) {

    /** The wrapped value, or `default` when absent. */
    function GetOr(default: T): T {
      match this
      case Some(v) => v
      case None => default
    }
  }

  /** A store (brand location) with its own base earning rate. */
  datatype Brand = Brand(
    id: string,
    name: string,
    location: string,
    earningRateOverride: real
  )

  datatype TierBenefit = TierBenefit(id: string, description: string)

  /** A membership tier: reached at `entryPoint` ranking points, earning at
      `multiplier` times the brand rate. */
  datatype Tier = Tier(
    id: string,
    name: string,
    entryPoint: int,
    multiplier: real,
    benefits: seq<TierBenefit>,
    visualColor: string
  )

  /** A member with the two independent wallets: `rankingPoints` decide the
      tier, `rewardPoints` are the spendable currency. */
  datatype Customer = Customer(
    id: string,
    name: string,
    email: string,
    currentTierId: string,
    rankingPoints: int,
    rewardPoints: int
  )

  datatype TransactionType = Earn | Redeem | Adjustment

  /** The audit record of one balance change. */
  datatype Transaction = Transaction(
    id: string,
    txType: TransactionType,
    amountRanking: int,
    amountReward: int,
    reason: string,
    timestamp: int,
    customerId: string
  )
}
