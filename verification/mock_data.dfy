/** The program's sample catalog, brands and customers, with the results
    the model gives on them. */
module MockData {
  import opened LoyaltyTypes
  import opened PointsCalculator
  import opened TierCatalog
  import opened MemberAdmin

  function Basic(): Tier { Tier("t1", "Basic", 0, 1.0, [], "basic") }
  function Gold(): Tier { Tier("t2", "Gold", 800, 1.5, [], "gold") }
  function Diamond(): Tier { Tier("t3", "Diamond", 2500, 2.0, [], "diamond") }

  function MockTiers(): seq<Tier> { [Basic(), Gold(), Diamond()] }

  /** The first sample brand, earning 2 points per currency unit. */
  function NguyenThiDieu(): Brand { Brand("1", "Norra", "Nguyễn Thị Diệu", 2.0) }

  function MockCustomers(): seq<Customer> {
    [ Customer("c1", "Alice Johnson", "alice@example.com", "Gold", 5200, 150),
      Customer("c2", "Bob Smith", "bob.smith@test.com", "Silver", 1200, 45),
      Customer("c3", "Charlie Brown", "charlie@peanuts.com", "Member", 120, 10),
      Customer("c4", "Diana Prince", "diana@themyscira.net", "Gold", 8500, 2300) ]
  }

  /** The sample catalog is well formed: one base tier at 0, distinct
      entry points. */
  lemma MockTiersWellFormed()
    ensures WellFormedCatalog(MockTiers())
  {
    assert MockTiers()[0].entryPoint == 0;
  }

  /** The whole resolution table of the sample catalog: Diamond from 2500
      points, Gold from 800, Basic below that (so 799 is still Basic), and
      Basic again, by the fallback, for a negative balance. */
  lemma MockTierTable(points: int)
    ensures DetermineTier(points, MockTiers()) ==
      if points >= 2500 then Some(Diamond())
      else if points >= 800 then Some(Gold())
      else Some(Basic())
  {
  }

  /** Resolution in any catalog laid out like the sample one. */
  lemma ThreeTierTable(points: int, tiers: seq<Tier>)
    requires |tiers| == 3
    requires tiers[0].entryPoint == 0 && tiers[1].entryPoint == 800 && tiers[2].entryPoint == 2500
    ensures DetermineTier(points, tiers) ==
      if points >= 2500 then Some(tiers[2])
      else if points >= 800 then Some(tiers[1])
      else Some(tiers[0])
  {
  }

  /** Earning on sample figures, including a half point rounded up. */
  lemma EarningExamples()
    ensures CalculatePoints(1000.0, Brand("b", "B", "L", 0.1), Tier("t", "T", 0, 1.5, [], "")) == 150
    ensures CalculatePoints(1000.0, NguyenThiDieu(), Gold()) == 3000
    ensures CalculatePoints(0.25, NguyenThiDieu(), Basic()) == 1
    ensures CalculatePoints(-1.0, NguyenThiDieu(), Diamond()) == 0
  {
  }

  /** Upper-case input finds the lower-case name: "BOB" is stored as
      "bob", which starts "bob smith". */
  lemma SearchIsCaseInsensitive()
    ensures Matches(MockCustomers()[1], HandleSearch("BOB"))
  {
  }

  /** An empty search keeps the whole sample list. */
  lemma EmptySearchExample()
    ensures FilterCustomers(MockCustomers(), "") == MockCustomers()
  {
    EmptySearchKeepsAll(MockCustomers());
  }
}
