# Loyalty dual-wallet engine — Dafny model

This project models the domain logic of a loyalty-program administration
dashboard. Each member has two independent wallets. **Ranking points** decide
the member's tier. **Reward points** are the spendable currency. The model
covers:

- earning points on an order subtotal (`calculatePoints`);
- resolving a member's tier from ranking points and a tier catalog
  (`determineTier`);
- manual balance adjustments and the audit transaction each one produces
  (`adjustBalance`);
- the tier-expiry classifier of the member table (`getValidityStatus` and
  the derived "flag this member" test);
- the administration list operations: case-insensitive search,
  confirmation of an adjustment form, and the replace-by-id list update.

Modules:

| module | file | models |
|---|---|---|
| `LoyaltyTypes` | `types.dfy` | `Brand`, `Tier`, `Customer`, `TransactionType`, `Transaction` of `src/lib/loyalty/types.ts` |
| `PointsCalculator` | `points.dfy` | `calculatePoints` |
| `TierCatalog` | `tiers.dfy` | `determineTier`: the stable descending sort of a copy, `find`, the last-element fallback, and reference definitions it is proved equal to |
| `BalanceLedger` | `ledger.dfy` | `adjustBalance` |
| `ValidityClassifier` | `validity.dfy` | `getValidityStatus`, `isExpiredOrWarning` |
| `MemberAdmin` | `member_admin.dfy` | search filter, `handleAdjustConfirm`, replace-by-id |
| `MockData` | `mock_data.dfy` | the sample tier catalog, brand and customers, with results on them |

Modelling decisions:

- Balances, tier entry points and adjustment amounts are whole points
  (`int`). Earning rates and multipliers are exact `real`s.
- `Math.round` is `RoundHalfUp`, that is ⌊x + ½⌋. Halves round towards
  positive infinity.
- Timestamps are integer milliseconds. A day is 86,400,000 ms. `Math.ceil`
  of the quotient is `CeilDiv`, specified as the least `q` with
  `n <= q * d`. While the two instants are at most 2^53 ms apart (about
  104,249,991 days, or 285,000 years), which holds for any real clock
  reading, the program's subtraction of the two times is exact, and the
  rounded quotient (off by at most 2^-27) cannot reach a whole number that
  the exact quotient (at least 1/86,400,000 away from one) misses, so its
  ceiling equals the exact one.
- `determineTier` copies the catalog before sorting it, and the sort is
  stable. `SortDesc` is a stable insertion sort on an immutable sequence, so
  the catalog passed in is never reordered. When several tiers share an
  entry point, the result is the first of them in catalog order. In the
  fallback case it is the last of the lowest ones. `BestEligible` and
  `Lowest` pin this down.
- The random transaction id and the wall-clock timestamp of
  `adjustBalance` are parameters. The `console.warn` on a negative reward
  balance is the `rewardWarning` flag of the result.
- `toLowerCase` is modelled on ASCII letters only; other characters are
  kept as typed.
- The adjustment form's `validateFields` succeeds exactly when a
  non-empty reason was given, because the reason field is marked
  required. An empty form field is `None`. When validation fails, the
  `catch` branch leaves the list unchanged. A missing amount becomes 0
  through `|| 0`.

Notes on the program's behaviour:

- The classifier has three states: `expired`, `warning` and `safe`.
  There is no separate grace-period state; a single "Grace Period /
  Expired" label covers every negative day count.
- Because the day count is a ceiling, a tier that ended less than one day
  ago still gets `warning` with 0 days, not `expired`
  (`NotExpiredWithinFirstDay`).
- `adjustBalance` does not re-resolve the member's tier. `currentTierId`
  is copied unchanged.
- The member record is `Customer`, with the six fields of `types.ts`.

## Model

| member | source | states |
|---|---|---|
| `PointsCalculator.RoundHalfUp` | src/lib/loyalty/logic.ts:25 | the result is the integer within one half of the input (lower half-point included), which is how `Math.round` rounds |
| `PointsCalculator.RoundHalfUpMonotone` | src/lib/loyalty/logic.ts:25 | rounding preserves order: a larger input never rounds to a smaller integer |
| `PointsCalculator.CalculatePoints` | src/lib/loyalty/logic.ts:12-26 | a negative subtotal earns 0; otherwise the points are within ½ of subtotal × brand rate × tier multiplier |
| `PointsCalculator.CalculatePointsNonNegative` | src/lib/loyalty/logic.ts:17-25 | with a non-negative rate and multiplier no subtotal earns negative points |
| `PointsCalculator.CalculatePointsMonotone` | src/lib/loyalty/logic.ts:17-25 | with a non-negative rate and multiplier a larger subtotal never earns fewer points |
| `TierCatalog.SortDesc` | src/lib/loyalty/logic.ts:43 | the sorted copy is a permutation of the catalog and is ordered by entry point, highest first |
| `TierCatalog.InsertDescSorted` | src/lib/loyalty/logic.ts:43 | inserting a tier into a descending sequence keeps it descending |
| `TierCatalog.InsertDesc` | src/lib/loyalty/logic.ts:43 | one step of the sort: the result holds the old elements plus the inserted tier, each exactly as often as before, and is one longer |
| `TierCatalog.FindEligible` | src/lib/loyalty/logic.ts:46 | `find` returns the first element of the sequence that the points reach (every earlier one is out of reach), and returns nothing only when no tier is reached |
| `TierCatalog.DetermineTier` | src/lib/loyalty/logic.ts:36-52 | null exactly for an empty catalog; otherwise a catalog tier; if some tier is reached, the result is reached and no reached tier has a higher entry point; if none is reached, the result has the lowest entry point |
| `TierCatalog.BestEligible` | src/lib/loyalty/logic.ts:43-46 | reference for sort + find: absent exactly when no tier is reached; otherwise a reached catalog tier with the highest reached entry point |
| `TierCatalog.Lowest` | src/lib/loyalty/logic.ts:51 | reference for the fallback: a catalog tier whose entry point is at or below every other |
| `TierCatalog.DetermineTierIsReference` | src/lib/loyalty/logic.ts:43-51 | the stable descending sort followed by `find` equals `BestEligible`, and the last element of the sorted copy equals `Lowest` |
| `TierCatalog.FindSortedIsBest` | src/lib/loyalty/logic.ts:43-46 | `find` over the sorted copy yields the reference best eligible tier, including the tie-break |
| `TierCatalog.FindInsert` | src/lib/loyalty/logic.ts:43-46 | how `find` over a sorted sequence changes when one tier is inserted |
| `TierCatalog.LastSortedIsLowest` | src/lib/loyalty/logic.ts:43-51 | the last tier of the sorted copy is the reference lowest tier |
| `TierCatalog.LastInsert` | src/lib/loyalty/logic.ts:43-51 | how the last element of a sorted sequence changes when one tier is inserted |
| `TierCatalog.DetermineTierMonotone` | src/lib/loyalty/logic.ts:43-51 | more ranking points never resolve to a tier with a lower entry point |
| `TierCatalog.BaseTierNeverFallsBack` | src/lib/loyalty/logic.ts:48-51 | in any catalog with a tier at entry point 0 (repeated entry points allowed), and with non-negative points, the fallback is never taken and the result is the best reached tier |
| `TierCatalog.DetermineTierUnique` | src/lib/loyalty/logic.ts:43-46 | in any catalog whose entry points are pairwise distinct, for any points, the result is the one reached tier that every reached tier is at or below |
| `BalanceLedger.AdjustBalance` | src/lib/loyalty/logic.ts:65-100 | ranking becomes max(0, old + delta); reward becomes old + delta with no floor; the warning fires exactly when reward is negative; id, name, email and tier are unchanged; the transaction carries the requested (unclamped) deltas, the type, the reason and the customer id |
| `BalanceLedger.AdjustByZeroIsIdentity` | src/lib/loyalty/logic.ts:74-87 | a zero adjustment of a member with non-negative ranking changes nothing |
| `BalanceLedger.TwoAdjustments` | src/lib/loyalty/logic.ts:74-97 | two successive calls add up on the reward wallet; ranking ends at least where one combined call would put it, and exactly there when the first step does not clamp; the second call's transaction carries its own id and only its own deltas |
| `BalanceLedger.LargeDebitClampsToZero` | src/lib/loyalty/logic.ts:84-87 | a −9999 ranking adjustment of a balance in 0..9999 leaves ranking at 0 and reward untouched, and the transaction records −9999 |
| `ValidityClassifier.CeilDiv` | src/components/loyalty/MemberManagementTab.tsx:113-114 | the day count is the least integer q with diff ≤ q × day, that is the ceiling of diff / day |
| `ValidityClassifier.GetValidityStatus` | src/components/loyalty/MemberManagementTab.tsx:98-119 | days is the ceiling of the remaining time in days; expired exactly when days < 0, warning exactly when 0 ≤ days ≤ 30, safe exactly when days > 30; every branch reports the same day count |
| `ValidityClassifier.StatusByRemainingTime` | src/components/loyalty/MemberManagementTab.tsx:112-118 | in milliseconds: expired exactly when at least a full day has passed since the end, safe exactly when more than 30 days remain, warning otherwise |
| `ValidityClassifier.IsExpiredOrWarning` | src/components/loyalty/MemberManagementTab.tsx:149-150 | a member is flagged (status not safe) exactly when 30 days or less remain |
| `ValidityClassifier.NotExpiredWithinFirstDay` | src/components/loyalty/MemberManagementTab.tsx:114-117 | when the end is now, in the future, or less than a day past, the status is not expired; at or just past the end it is a warning with 0 days |
| `ValidityClassifier.LaterEndNeverWorse` | src/components/loyalty/MemberManagementTab.tsx:112-118 | moving the end date later never moves safe to warning or warning to expired |
| `ValidityClassifier.ValidityExamples` | src/components/loyalty/MemberManagementTab.tsx:112-118 | 10 days ahead is warning(10), 10 days past is expired(−10), 40 days ahead is safe(40) |
| `MemberAdmin.ToLowerIdempotent` | src/components/loyalty/MemberManagement.tsx:38-40 | the stored search text has no upper-case letters, and lowering it again changes nothing |
| `MemberAdmin.HandleSearch` | src/components/loyalty/MemberManagement.tsx:38-40 | the stored search text has the typed text's length, no upper-case letter, each upper-case letter replaced by its lower-case partner and every other character kept |
| `MemberAdmin.Includes` | src/components/loyalty/MemberManagement.tsx:43-45 | `includes` succeeds exactly when the text occurs at some position; the empty text occurs everywhere |
| `MemberAdmin.Matches` | src/components/loyalty/MemberManagement.tsx:43-45 | a customer matches exactly when the search text occurs in its lower-cased name, email or id |
| `MemberAdmin.FilterCustomers` | src/components/loyalty/MemberManagement.tsx:42-46 | the result is an order-preserving sub-list of the input, and every customer appears in it as often as in the input if its lowered name, email or id contains the search text, and otherwise not at all |
| `MemberAdmin.FilterKeepsExactlyMatches` | src/components/loyalty/MemberManagement.tsx:42-46 | a customer is shown exactly when it is in the list and matches |
| `MemberAdmin.EmptySearchKeepsAll` | src/components/loyalty/MemberManagement.tsx:42-46 | an empty search shows the whole list unchanged |
| `MemberAdmin.ReplaceById` | src/components/loyalty/MemberManagement.tsx:79 | length and order are kept; exactly the entries whose id is the updated customer's id become the updated customer, and the rest are untouched |
| `MemberAdmin.ReplaceByIdKeepsIds` | src/components/loyalty/MemberManagement.tsx:79 | every position keeps its id, and replacing twice equals replacing once |
| `MemberAdmin.ReplaceByIdUniqueIds` | src/components/loyalty/MemberManagement.tsx:79 | with unique ids, only the position holding the updated id changes |
| `MemberAdmin.ConfirmAdjustment` | src/components/loyalty/MemberManagement.tsx:59-88 | a missing or empty reason (the field's `required` rule at MemberManagement.tsx:232 makes validation fail) or no selection leaves the list unchanged; otherwise, whatever the amounts, the list keeps its length, entries with the selected id become the selected customer adjusted by the form amounts (missing ones as 0), and all other entries are unchanged |
| `MockData.MockTiersWellFormed` | src/lib/loyalty/mockData.ts:18-22 | the sample catalog has a 0-entry base tier, distinct entry points and positive multipliers |
| `MockData.ThreeTierTable` | src/lib/loyalty/logic.ts:43-51 | in a catalog with entry points 0, 800, 2500: 2500 or more resolves to the third tier, 800 or more to the second, anything else to the first |
| `MockData.MockTierTable` | src/lib/loyalty/mockData.ts:18-22 | on the sample catalog, 799 → Basic, 800 → Gold, 2500 → Diamond, and a negative balance falls back to Basic |
| `MockData.EarningExamples` | src/lib/loyalty/logic.ts:17-25 | 1000 × 0.1 × 1.5 earns 150; 1000 at rate 2 in Gold earns 3000; a half point rounds up; a negative subtotal earns 0 |
| `MockData.SearchIsCaseInsensitive` | src/components/loyalty/MemberManagement.tsx:38-46 | typing "BOB" finds "Bob Smith" |
| `MockData.EmptySearchExample` | src/components/loyalty/MemberManagement.tsx:42-46 | an empty search keeps the whole sample list |

## Left out

- IEEE-754 floating point: the earning formula is computed on exact reals, so float artefacts such as `1.005 * 100` are not modelled. Non-finite inputs (`NaN`, `Infinity`) are not modelled either.
- ValidityClassifier.CeilDiv: computes the exact ceiling. When the two instants are more than 2^53 ms (about 104,249,991 days) apart, the program's floating-point subtraction `end.getTime() - today.getTime()` already rounds, and the ceiling of the rounded difference can be one less than the exact one; that case is not modelled.
- Fractional point amounts: balances, entry points and adjustment deltas are integers, though the source's `number` could hold fractions.
- ISO date-string parsing and `new Date()`: both instants are integer milliseconds passed in. The classifier's `label` and `color` fields are presentation text and are left out.
- Unicode `toLowerCase`: the model lowers ASCII `A`–`Z` only; other letters (such as `Đ`) are kept as typed, and the program's result can differ in length (`İ` lowers to two code units), so `HandleSearch`'s length clause holds for the model only.
- The transaction id (`Math.random`), its timestamp (`new Date()`) and the `console.warn` text: the id and timestamp are parameters, and the warning is a boolean flag.
- The one-second `setTimeout` delay, the `isSubmitting` and modal-visibility state, and the success message of `handleAdjustConfirm`: these are React state plumbing with no effect on the data.
- The transaction that `adjustBalance` returns is dropped by the confirmation handler, and `ConfirmAdjustment` drops it too. The model does not cover an audit log that keeps it.
- `getTierValidityStatus`, `getDaysUntilExpiry` and `getNextTierProgress` are imported by other tab components, but their definitions are not part of this model. The tier-progress projection is therefore not modelled.
- The `Member` record type imported by the member table component is not defined in the types file. It is not part of this model; its expiry date enters only as the `endMs` argument.
- JSX rendering, tables, tags, the tier colour helper, theming, pages and layouts: these are presentation code.
- The sample data arrays are used only as fixtures in `MockData`.
