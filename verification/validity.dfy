/** Classification of a member's tier expiry, as shown in the member
    table: the number of days left, rounded up, decides between `Expired`,
    `Warning` (30 days or fewer left) and `Safe`.

    Both instants are milliseconds since the epoch; the program reads `now`
    from the wall clock and parses the end date from an ISO string. */
module ValidityClassifier {

  const MsPerDay: int := 1000 * 60 * 60 * 24

  /** Days within which an expiry is flagged. */
  const WarningDays: int := 30

  datatype ValidityStatus = Expired | Warning | Safe

  datatype Validity = Validity(status: ValidityStatus, days: int)

  /** `Math.ceil(n / d)` for a positive divisor: the least integer `q` with
      `n <= q * d`. */
  function CeilDiv(n: int, d: int): (q: int)
    requires d > 0
    ensures (q - 1) * d < n <= q * d
  {
    var k := (-n) / d;
    assert -n == k * d + (-n) % d;
    -k
  }

  /** The validity of a tier ending at `endMs`, seen at `nowMs`. */
  function GetValidityStatus(endMs: int, nowMs: int): (v: Validity)
    // days: the remaining time in whole days, rounded up
    ensures (v.days - 1) * MsPerDay < endMs - nowMs <= v.days * MsPerDay
    ensures v.status == Expired <==> v.days < 0
    ensures v.status == Warning <==> 0 <= v.days <= WarningDays
    ensures v.status == Safe <==> v.days > WarningDays
  {
    var diffTime := endMs - nowMs;
    var diffDays := CeilDiv(diffTime, MsPerDay);
    if diffDays < 0 then Validity(Expired, diffDays)
    else if diffDays <= WarningDays then Validity(Warning, diffDays)
    else Validity(Safe, diffDays)
  }

  /** The table flags a member whenever the status is not `Safe`, which
      is exactly when 30 days or less remain. */
  function IsExpiredOrWarning(endMs: int, nowMs: int): (flagged: bool)
    ensures flagged <==> endMs - nowMs <= WarningDays * MsPerDay
  {
    GetValidityStatus(endMs, nowMs).status != Safe
  }

  /** The status read directly off the remaining time: expired once a full
      day or more has passed since the end, safe with more than 30 days
      left, a warning otherwise. */
  lemma StatusByRemainingTime(endMs: int, nowMs: int)
    ensures var v := GetValidityStatus(endMs, nowMs);
      && (v.status == Expired <==> endMs - nowMs <= -MsPerDay)
      && (v.status == Safe <==> endMs - nowMs > WarningDays * MsPerDay)
      && (v.status == Warning <==> -MsPerDay < endMs - nowMs <= WarningDays * MsPerDay)
  {
  }

  /** On the end instant itself, and up to a day after it, the status is a
      warning with zero days, not yet expired; any positive remainder also
      counts as a warning or better. */
  lemma NotExpiredWithinFirstDay(endMs: int, nowMs: int)
    requires endMs - nowMs > -MsPerDay
    ensures GetValidityStatus(endMs, nowMs).status != Expired
    ensures endMs - nowMs <= 0 ==> GetValidityStatus(endMs, nowMs) == Validity(Warning, 0)
  {
  }

  function StatusRank(s: ValidityStatus): int {
    match s
    case Expired => 0
    case Warning => 1
    case Safe => 2
  }

  /** A later end date never gives a worse status. */
  lemma LaterEndNeverWorse(end1: int, end2: int, nowMs: int)
    requires end1 <= end2
    ensures StatusRank(GetValidityStatus(end1, nowMs).status) <= StatusRank(GetValidityStatus(end2, nowMs).status)
  {
  }

  /** End dates 10 days ahead, 10 days past and 40 days ahead. */
  lemma ValidityExamples(nowMs: int)
    ensures GetValidityStatus(nowMs + 10 * MsPerDay, nowMs) == Validity(Warning, 10)
    ensures GetValidityStatus(nowMs - 10 * MsPerDay, nowMs) == Validity(Expired, -10)
    ensures GetValidityStatus(nowMs + 40 * MsPerDay, nowMs) == Validity(Safe, 40)
  {
  }
}
