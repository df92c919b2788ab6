/** Resolution of a member's tier from ranking points.

    `DetermineTier` follows the program step by step: it sorts a copy of
    the catalog by entry point, highest first, with a stable sort (equal
    entry points keep their catalog order), takes the first tier whose entry
    point the member has reached, and otherwise falls back to the last tier
    of the sorted copy. `BestEligible` and `Lowest` are reference
    definitions over the unsorted catalog; `DetermineTierIsReference` proves
    the two agree, and the properties callers rely on are stated on
    `DetermineTier` itself. */
module TierCatalog {
  import opened LoyaltyTypes

  // ---------------------------------------------------------------------
  // The sorted copy

  ghost predicate SortedDesc(s: seq<Tier>) {
    forall i, j :: 0 <= i < j < |s| ==> s[i].entryPoint >= s[j].entryPoint
  }

  /** Inserts `t` after every tier with a strictly higher entry point and
      before the rest, so `t` precedes tiers of equal entry point that come
      after it in the catalog. */
  function InsertDesc(t: Tier, s: seq<Tier>): (r: seq<Tier>)
    ensures |r| == |s| + 1
    ensures multiset(r) == multiset(s) + multiset{t}
  {
    if |s| == 0 then [t]
    else if s[0].entryPoint > t.entryPoint then
      assert s == [s[0]] + s[1..];
      [s[0]] + InsertDesc(t, s[1..])
    else
      [t] + s
  }

  /** Inserting into a sorted sequence keeps it sorted. */
  lemma {:induction false} InsertDescSorted(t: Tier, s: seq<Tier>)
    requires SortedDesc(s)
    ensures SortedDesc(InsertDesc(t, s))
  {
    if |s| > 0 && s[0].entryPoint > t.entryPoint {
      var rest := InsertDesc(t, s[1..]);
      InsertDescSorted(t, s[1..]);
      forall x | x in rest
        ensures x.entryPoint <= s[0].entryPoint
      {
        assert x in multiset(rest);
        if x != t {
          assert x in multiset(s[1..]);
        }
      }
      var r := [s[0]] + rest;
      forall i, j | 0 <= i < j < |r|
        ensures r[i].entryPoint >= r[j].entryPoint
      {
        if i > 0 {
          assert r[i] == rest[i - 1] && r[j] == rest[j - 1];
        } else {
          assert r[j] in rest;
        }
      }
    }
  }

  /** The stable descending sort of a copy of the catalog. */
  function SortDesc(s: seq<Tier>): (r: seq<Tier>)
    ensures |r| == |s|
    ensures multiset(r) == multiset(s)
    ensures SortedDesc(r)
  {
    if |s| == 0 then []
    else
      assert s == [s[0]] + s[1..];
      InsertDescSorted(s[0], SortDesc(s[1..]));
      InsertDesc(s[0], SortDesc(s[1..]))
  }

  /** `Array.prototype.find`: the first tier the member has reached. */
  function FindEligible(s: seq<Tier>, points: int): (r: Option<Tier>)
    ensures r.Some? ==> r.value in s && r.value.entryPoint <= points
    ensures r.None? ==> forall t :: t in s ==> t.entryPoint > points
    // the first one: every earlier tier is out of reach
    ensures r.Some? ==>
      exists k :: 0 <= k < |s| && s[k] == r.value && forall j :: 0 <= j < k ==> s[j].entryPoint > points
  {
    if |s| == 0 then None
    else if points >= s[0].entryPoint then
      Some(s[0])
    else
      var r := FindEligible(s[1..], points);
      if r.Some? then
        var k :|
          0 <= k < |s[1..]| && s[1..][k] == r.value && forall j :: 0 <= j < k ==> s[1..][j].entryPoint > points;
        assert s[k + 1] == r.value;
        assert forall j :: 0 <= j < k + 1 ==> s[j].entryPoint > points by {
          forall j | 0 <= j < k + 1 ensures s[j].entryPoint > points {
            if j > 0 { assert s[j] == s[1..][j - 1]; }
          }
        }
        r
      else r
  }

  /** The tier of a member with `currentRankingPoints`; `None` for an empty
      catalog. */
  function DetermineTier(currentRankingPoints: int, tiersList: seq<Tier>): (r: Option<Tier>)
    ensures r.None? <==> |tiersList| == 0
    ensures r.Some? ==> r.value in tiersList
    // some tier is reached: the result is reached and no reached tier is higher
    ensures (exists t :: t in tiersList && t.entryPoint <= currentRankingPoints) ==>
      && r.value.entryPoint <= currentRankingPoints
      && forall t :: t in tiersList && t.entryPoint <= currentRankingPoints ==>
           t.entryPoint <= r.value.entryPoint
    // no tier is reached: the result is a lowest tier
    ensures r.Some? && r.value.entryPoint > currentRankingPoints ==>
      forall t :: t in tiersList ==> r.value.entryPoint <= t.entryPoint
  {
    if |tiersList| == 0 then None
    else
      var sortedTiers := SortDesc(tiersList);
      DetermineTierIsReference(currentRankingPoints, tiersList);
      match FindEligible(sortedTiers, currentRankingPoints)
      case Some(eligibleTier) => Some(eligibleTier)
      case None => Some(sortedTiers[|sortedTiers| - 1])
  }

  // ---------------------------------------------------------------------
  // Reference definitions over the catalog as given

  /** The first tier, in catalog order, among the reached tiers with the
      highest entry point; `None` when no tier is reached. */
  function BestEligible(points: int, tiers: seq<Tier>): (r: Option<Tier>)
    ensures r.None? <==> forall t :: t in tiers ==> t.entryPoint > points
    ensures r.Some? ==>
      && r.value in tiers
      && r.value.entryPoint <= points
      && forall t :: t in tiers && t.entryPoint <= points ==> t.entryPoint <= r.value.entryPoint
  {
    if |tiers| == 0 then None
    else
      assert tiers == [tiers[0]] + tiers[1..];
      Prefer(tiers[0], BestEligible(points, tiers[1..]), points)
  }

  /** `t` if it is reached and no lower than `b`, else `b`. */
  function Prefer(t: Tier, b: Option<Tier>, points: int): Option<Tier> {
    if t.entryPoint <= points && (b.None? || b.value.entryPoint <= t.entryPoint) then Some(t)
    else b
  }

  /** The last tier, in catalog order, among those with the lowest entry
      point. */
  function Lowest(tiers: seq<Tier>): (r: Tier)
    requires |tiers| > 0
    ensures r in tiers
    ensures forall t :: t in tiers ==> r.entryPoint <= t.entryPoint
  {
    if |tiers| == 1 then tiers[0]
    else
      assert tiers == [tiers[0]] + tiers[1..];
      var l := Lowest(tiers[1..]);
      if l.entryPoint > tiers[0].entryPoint then tiers[0] else l
  }

  /** The stable sort followed by `find` and the last-element fallback picks
      exactly the reference tier. */
  lemma DetermineTierIsReference(points: int, tiers: seq<Tier>)
    requires |tiers| > 0
    ensures FindEligible(SortDesc(tiers), points) == BestEligible(points, tiers)
    ensures var s := SortDesc(tiers); |s| > 0 && s[|s| - 1] == Lowest(tiers)
  {
    FindSortedIsBest(points, tiers);
    LastSortedIsLowest(tiers);
  }

  lemma {:induction false} FindSortedIsBest(points: int, tiers: seq<Tier>)
    ensures FindEligible(SortDesc(tiers), points) == BestEligible(points, tiers)
  {
    if |tiers| > 0 {
      FindSortedIsBest(points, tiers[1..]);
      FindInsert(tiers[0], SortDesc(tiers[1..]), points);
    }
  }

  lemma {:induction false} FindInsert(t: Tier, s: seq<Tier>, points: int)
    requires SortedDesc(s)
    ensures FindEligible(InsertDesc(t, s), points) == Prefer(t, FindEligible(s, points), points)
  {
    if |s| == 0 {
    } else if s[0].entryPoint > t.entryPoint {
      FindInsert(t, s[1..], points);
    } else {
      var f := FindEligible(s, points);
      if f.Some? {
        assert f.value.entryPoint <= t.entryPoint by {
          var k :| 0 <= k < |s| && s[k] == f.value;
        }
      }
    }
  }

  lemma {:induction false} LastSortedIsLowest(tiers: seq<Tier>)
    requires |tiers| > 0
    ensures var s := SortDesc(tiers); |s| > 0 && s[|s| - 1] == Lowest(tiers)
  {
    if |tiers| > 1 {
      LastSortedIsLowest(tiers[1..]);
      LastInsert(tiers[0], SortDesc(tiers[1..]));
    }
  }

  lemma {:induction false} LastInsert(t: Tier, s: seq<Tier>)
    requires SortedDesc(s) && |s| > 0
    ensures var r := InsertDesc(t, s);
      |r| == |s| + 1 &&
      r[|r| - 1] == (if s[|s| - 1].entryPoint > t.entryPoint then t else s[|s| - 1])
  {
    if s[0].entryPoint > t.entryPoint {
      if |s| > 1 {
        LastInsert(t, s[1..]);
      }
    }
  }
  // ---------------------------------------------------------------------
  // Properties of the resolution

  /** A catalog as the program intends it: non-negative entry points,
      positive multipliers, entry points pairwise distinct (a total order)
      and a base tier at entry point 0. */
  ghost predicate WellFormedCatalog(tiers: seq<Tier>) {
    && (forall i :: 0 <= i < |tiers| ==> tiers[i].entryPoint >= 0 && tiers[i].multiplier > 0.0)
    && DistinctEntryPoints(tiers)
    && (exists i :: 0 <= i < |tiers| && tiers[i].entryPoint == 0)
  }

  /** No two catalog positions share an entry point. */
  ghost predicate DistinctEntryPoints(tiers: seq<Tier>) {
    forall i, j :: 0 <= i < j < |tiers| ==> tiers[i].entryPoint != tiers[j].entryPoint
  }

  /** More ranking points never resolve to a lower tier. */
  lemma DetermineTierMonotone(p1: int, p2: int, tiers: seq<Tier>)
    requires p1 <= p2 && |tiers| > 0
    ensures DetermineTier(p1, tiers).value.entryPoint <= DetermineTier(p2, tiers).value.entryPoint
  {
    var r1, r2 := DetermineTier(p1, tiers).value, DetermineTier(p2, tiers).value;
    if r1.entryPoint <= p1 {
      // r1 is reached with p2 too, so the tier for p2 is at least r1
      assert r1 in tiers && r1.entryPoint <= p2;
    } else {
      // r1 is a lowest tier
      assert r2 in tiers;
    }
  }

  /** With a tier at entry point 0 and non-negative points the fallback is
      never taken: the result is the highest reached tier. Repeated entry
      points and other multipliers are allowed. */
  lemma BaseTierNeverFallsBack(points: int, tiers: seq<Tier>)
    requires exists t :: t in tiers && t.entryPoint == 0
    requires points >= 0
    ensures var r := DetermineTier(points, tiers);
      r.Some? && r.value.entryPoint <= points && r == BestEligible(points, tiers)
  {
    DetermineTierIsReference(points, tiers);
  }

  /** When entry points are distinct the tier is determined by entry points
      alone: it is the one reached tier that every reached tier is below or
      at, whatever the catalog order, the multipliers or the sign of the
      points. */
  lemma DetermineTierUnique(points: int, tiers: seq<Tier>, t: Tier)
    requires DistinctEntryPoints(tiers)
    requires t in tiers && t.entryPoint <= points
    requires forall u :: u in tiers && u.entryPoint <= points ==> u.entryPoint <= t.entryPoint
    ensures DetermineTier(points, tiers) == Some(t)
  {
    var r := DetermineTier(points, tiers).value;
    // both are reached and each is at or above the other
    assert r.entryPoint == t.entryPoint;
    var i :| 0 <= i < |tiers| && tiers[i] == r;
    var j :| 0 <= j < |tiers| && tiers[j] == t;
    // distinct entry points: equal entry points mean the same position
    assert i == j;
  }
}
