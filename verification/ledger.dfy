/** Manual adjustment of a member's two wallets, with its audit record.

    The transaction id (a random string in the program) and the timestamp
    (the wall clock) are parameters; the console warning the program prints
    when the reward balance goes negative is the `rewardWarning` flag. */
module BalanceLedger {
  import opened LoyaltyTypes

  datatype AdjustResult = AdjustResult(
    updatedCustomer: Customer,
    transaction: Transaction,
    rewardWarning: bool
  )

  /** `after` is `before` with `amountRanking` added to the ranking wallet,
      floored at 0, and `amountReward` added to the reward wallet, with no
      floor; identity, contact data and tier are untouched. */
  ghost predicate IsAdjusted(before: Customer, after: Customer, amountRanking: int, amountReward: int) {
    && after.id == before.id
    && after.name == before.name
    && after.email == before.email
    && after.currentTierId == before.currentTierId
    && after.rankingPoints >= 0
    && (before.rankingPoints + amountRanking >= 0 ==> after.rankingPoints == before.rankingPoints + amountRanking)
    && (before.rankingPoints + amountRanking < 0 ==> after.rankingPoints == 0)
    && after.rewardPoints == before.rewardPoints + amountReward
  }

  /** Applies an adjustment to a copy of `customer` and records it. */
  function AdjustBalance(
    customer: Customer,
    txType: TransactionType,
    amountRanking: int,
    amountReward: int,
    reason: string,
    txId: string,
    timestamp: int
  ): (r: AdjustResult)
    ensures IsAdjusted(customer, r.updatedCustomer, amountRanking, amountReward)
    ensures r.rewardWarning <==> r.updatedCustomer.rewardPoints < 0
    // the audit record keeps the requested deltas, not the clamped change
    ensures r.transaction.txType == txType
    ensures r.transaction.amountRanking == amountRanking
    ensures r.transaction.amountReward == amountReward
    ensures r.transaction.reason == reason
    ensures r.transaction.customerId == customer.id
    ensures r.transaction.id == txId && r.transaction.timestamp == timestamp
  {
    var spread := customer.(
      rankingPoints := customer.rankingPoints + amountRanking,
      rewardPoints := customer.rewardPoints + amountReward);
    var warn := spread.rewardPoints < 0;
    var updatedCustomer :=
      if spread.rankingPoints < 0 then spread.(rankingPoints := 0) else spread;
    var transaction := Transaction(txId, txType, amountRanking, amountReward, reason, timestamp, customer.id);
    AdjustResult(updatedCustomer, transaction, warn)
  }

  /** An adjustment of zero on both wallets of a member whose ranking
      balance is not negative changes nothing. */
  lemma AdjustByZeroIsIdentity(c: Customer, txType: TransactionType, reason: string, txId: string, ts: int)
    requires c.rankingPoints >= 0
    ensures AdjustBalance(c, txType, 0, 0, reason, txId, ts).updatedCustomer == c
  {
  }

  /** Two successive adjustments: the reward wallet moves by the sum of the
      deltas, and the ranking wallet ends at least where one combined
      adjustment would put it (exactly there when no intermediate clamp
      applies). Each call yields one transaction of its own, which carries its
      own id and only its own deltas, not the running total. */
  lemma TwoAdjustments(c: Customer, t1: TransactionType, a1: int, b1: int, t2: TransactionType, a2: int, b2: int,
                       reason: string, id1: string, id2: string, ts1: int, ts2: int)
    ensures var first := AdjustBalance(c, t1, a1, b1, reason, id1, ts1);
      var second := AdjustBalance(first.updatedCustomer, t2, a2, b2, reason, id2, ts2);
      var combined := AdjustBalance(c, t2, a1 + a2, b1 + b2, reason, id2, ts2);
      && second.updatedCustomer.rewardPoints == c.rewardPoints + b1 + b2
      && second.updatedCustomer.rankingPoints >= combined.updatedCustomer.rankingPoints
      && (c.rankingPoints + a1 >= 0 ==> second.updatedCustomer == combined.updatedCustomer)
      && second.transaction.amountRanking == a2 && second.transaction.amountReward == b2
      && second.transaction.id == id2
  {
  }

  /** A large enough debit empties the ranking wallet instead of making it
      negative, while the reward wallet is left untouched. */
  lemma LargeDebitClampsToZero(c: Customer, reason: string, txId: string, ts: int)
    requires 0 <= c.rankingPoints <= 9999
    ensures var r := AdjustBalance(c, Adjustment, -9999, 0, reason, txId, ts);
      r.updatedCustomer.rankingPoints == 0 && r.updatedCustomer.rewardPoints == c.rewardPoints
      && r.transaction.amountRanking == -9999
  {
  }
}
