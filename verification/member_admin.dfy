/** The customer list of the administration screen: case-insensitive
    search, the confirmation of a manual adjustment, and the replacement of
    the adjusted customer in the list. */
module MemberAdmin {
  import opened LoyaltyTypes
  import opened BalanceLedger

  // ---------------------------------------------------------------------
  // Lower-casing (ASCII letters only)

  function LowerChar(ch: char): char {
    if 'A' <= ch <= 'Z' then (ch as int - 'A' as int + 'a' as int) as char else ch
  }

  function ToLower(s: string): string {
    seq(|s|, i requires 0 <= i < |s| => LowerChar(s[i]))
  }

  /** The stored search text is already lower case: lowering it again
      changes nothing, so the stored text and the lowered fields it is
      compared with are both lower case. */
  lemma ToLowerIdempotent(s: string)
    ensures ToLower(ToLower(s)) == ToLower(s)
    ensures forall i :: 0 <= i < |s| ==> !('A' <= ToLower(s)[i] <= 'Z')
  {
  }

  // ---------------------------------------------------------------------
  // Substring search

  ghost predicate OccursAt(s: string, sub: string, i: int) {
    0 <= i && i + |sub| <= |s| && s[i..i + |sub|] == sub
  }

  /** `String.prototype.includes`, scanning from the left: true exactly
      when `sub` occurs at some position of `s`; the empty text occurs in
      every string. */
  function Includes(s: string, sub: string): (found: bool)
    ensures found <==> exists i :: OccursAt(s, sub, i)
    ensures |sub| == 0 ==> found
    decreases |s|
  {
    if |sub| > |s| then
      assert forall i :: !OccursAt(s, sub, i);
      false
    else if s[..|sub|] == sub then
      assert OccursAt(s, sub, 0);
      true
    else
      assert |s| > 0;
      var rest := Includes(s[1..], sub);
      OccursShift(s, sub);
      rest
  }

  /** Without a match at position 0, `sub` occurs in `s` exactly when it
      occurs in `s` without its first character. */
  lemma OccursShift(s: string, sub: string)
    requires |s| > 0 && !OccursAt(s, sub, 0)
    ensures (exists i :: OccursAt(s, sub, i)) <==> (exists i :: OccursAt(s[1..], sub, i))
  {
    if exists i :: OccursAt(s[1..], sub, i) {
      var i :| OccursAt(s[1..], sub, i);
      assert s[i + 1..i + 1 + |sub|] == s[1..][i..i + |sub|];
      assert OccursAt(s, sub, i + 1);
    }
    if exists i :: OccursAt(s, sub, i) {
      var i :| OccursAt(s, sub, i);
      assert s[1..][i - 1..i - 1 + |sub|] == s[i..i + |sub|];
      assert OccursAt(s[1..], sub, i - 1);
    }
  }

  // ---------------------------------------------------------------------
  // Search filter

  /** The search box stores the typed text lower-cased: same length, no
      upper-case letter left, each upper-case letter replaced by its
      lower-case partner and every other character kept. */
  function HandleSearch(input: string): (searchText: string)
    ensures |searchText| == |input|
    ensures forall i :: 0 <= i < |input| ==>
      && !('A' <= searchText[i] <= 'Z')
      && (if 'A' <= input[i] <= 'Z' then searchText[i] as int == input[i] as int + 32
          else searchText[i] == input[i])
  {
    ToLower(input)
  }

  /** A customer matches when its lower-cased name, email or id contains
      the search text. */
  function Matches(c: Customer, searchText: string): (matched: bool)
    ensures matched <==>
      || (exists i :: OccursAt(ToLower(c.name), searchText, i))
      || (exists i :: OccursAt(ToLower(c.email), searchText, i))
      || (exists i :: OccursAt(ToLower(c.id), searchText, i))
  {
    || Includes(ToLower(c.name), searchText)
    || Includes(ToLower(c.email), searchText)
    || Includes(ToLower(c.id), searchText)
  }

  /** `a` is `b` with some entries left out, in the same order. */
  ghost predicate SubList<T>(a: seq<T>, b: seq<T>)
    decreases |b|
  {
    || |a| == 0
    || (|b| > 0 && ((a[0] == b[0] && SubList(a[1..], b[1..])) || SubList(a, b[1..])))
  }

  /** The customers shown for `searchText`. */
  function FilterCustomers(customers: seq<Customer>, searchText: string): (r: seq<Customer>)
    ensures SubList(r, customers)
    ensures forall c :: multiset(r)[c] == if Matches(c, searchText) then multiset(customers)[c] else 0
  {
    if |customers| == 0 then []
    else
      assert customers == [customers[0]] + customers[1..];
      var rest := FilterCustomers(customers[1..], searchText);
      if Matches(customers[0], searchText) then [customers[0]] + rest else rest
  }

  /** Every shown customer matches, and every matching customer is shown. */
  lemma FilterKeepsExactlyMatches(customers: seq<Customer>, searchText: string, c: Customer)
    ensures c in FilterCustomers(customers, searchText) <==> c in customers && Matches(c, searchText)
  {
  }

  /** An empty search shows the whole list. */
  lemma {:induction false} EmptySearchKeepsAll(customers: seq<Customer>)
    ensures FilterCustomers(customers, "") == customers
  {
    if |customers| > 0 {
      assert Includes(ToLower(customers[0].name), "");
      EmptySearchKeepsAll(customers[1..]);
    }
  }

  // ---------------------------------------------------------------------
  // Replacement by id

  /** Every customer whose id is that of `updated` is replaced by it. */
  function ReplaceById(customers: seq<Customer>, updated: Customer): (r: seq<Customer>)
    ensures |r| == |customers|
    ensures forall i :: 0 <= i < |r| ==>
      r[i] == (if customers[i].id == updated.id then updated else customers[i])
  {
    if |customers| == 0 then []
    else
      [if customers[0].id == updated.id then updated else customers[0]]
        + ReplaceById(customers[1..], updated)
  }

  /** Replacement keeps every id where it was, and replacing twice is the
      same as replacing once. */
  lemma ReplaceByIdKeepsIds(customers: seq<Customer>, updated: Customer)
    ensures var r := ReplaceById(customers, updated);
      && (forall i :: 0 <= i < |r| ==> r[i].id == customers[i].id)
      && ReplaceById(r, updated) == r
  {
  }

  /** With unique ids, the updated customer appears exactly at the position
      of its id, and nowhere when the id is absent. */
  lemma ReplaceByIdUniqueIds(customers: seq<Customer>, updated: Customer, k: int)
    requires forall i, j :: 0 <= i < j < |customers| ==> customers[i].id != customers[j].id
    requires 0 <= k < |customers| && customers[k].id == updated.id
    ensures var r := ReplaceById(customers, updated);
      r[k] == updated && forall i :: 0 <= i < |r| && i != k ==> r[i] == customers[i]
  {
  }

  // ---------------------------------------------------------------------
  // Confirmation of a manual adjustment

  /** The adjustment form: any field may be left empty. */
  datatype AdjustForm = AdjustForm(
    amountRanking: Option<int>,
    amountReward: Option<int>,
    reason: Option<string>
  )

  /** Validation of the form: the reason is the one required field. */
  predicate FormValid(form: AdjustForm) {
    form.reason.Some? && |form.reason.value| > 0
  }

  /** The customer list after confirming the adjustment form for the
      selected customer: unchanged when validation fails or nobody is
      selected; otherwise an `Adjustment` with missing amounts taken as 0
      is applied to the selected customer and the result replaces every
      entry with its id. The transaction the ledger returns is dropped. */
  function ConfirmAdjustment(
    customers: seq<Customer>,
    selected: Option<Customer>,
    form: AdjustForm,
    txId: string,
    timestamp: int
  ): (r: seq<Customer>)
    // a missing or empty reason, or nobody selected: nothing happens
    ensures form.reason.None? || form.reason.value == "" || selected.None? ==> r == customers
    ensures |r| == |customers|
    // the amounts are optional: a missing one adjusts by 0
    ensures form.reason.Some? && form.reason.value != "" && selected.Some? ==>
      forall i :: 0 <= i < |r| ==>
        if customers[i].id == selected.value.id then
          IsAdjusted(selected.value, r[i], form.amountRanking.GetOr(0), form.amountReward.GetOr(0))
        else r[i] == customers[i]
  {
    if !FormValid(form) then customers
    else if selected.None? then customers
    else
      var result := AdjustBalance(
        selected.value,
        Adjustment,
        form.amountRanking.GetOr(0),
        form.amountReward.GetOr(0),
        form.reason.value,
        txId,
        timestamp);
      ReplaceById(customers, result.updatedCustomer)
  }
}
