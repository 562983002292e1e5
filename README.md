# Club ledger billing engine — a Dafny model

This project models the backend of a club ledger: members and the guests they bring attend
activities, every attendance (a *presence*) is billed at the activity's price, and payments
are recorded against presences. The model covers:

- the **discount engine**. A member who brought at least `nbpersonne` guests to an activity
  pays the price less `remise` of it. Everyone else pays the base price.
- the **per-presence balance** and the **payment authorisation** that refuses overpayment.
- the **handlers that change the ledger**, each with its validation chain:
  - presence registration
  - activity creation
  - person and member creation
  - the policy update
- the **report aggregations**, per member, per member with guests, per activity and per
  (SP, activity) pair.
- the **parameterised filter builder** and the overall statistics of the payment-view reports.

The Postgres tables are sequences of rows in a `Store` value (module `Ledger`). The
handlers that write take a `Db` object whose fields are those tables, and they append or
rewrite rows in place. Each handler is specified against a pure decision function over the
state before the call, and the properties of the ledger are proved about those functions.

The SQL semantics are written out:

- `NULL` equals nothing (`SqlEq`).
- `COALESCE` is `Coalesce`.
- A join on a key column is a lookup of the first row with that id.
- A `DISTINCT` count is the size of a set.
- `SUM` over no rows, with `COALESCE(…, 0)`, is 0.

Money is `real`, so `price - price * remise` is exact. Dates are `yyyymmdd` integers, and
"today" is a parameter of every operation that reads the clock.

One module per source file:

- `ledger.dfy`: the tables and key lookups.
- `discount.dfy`: `backend/utils/discountService.js`.
- `price_calculator.dfy`: `backend/utils/priceCalculator.js`.
- `query_helpers.dfy`: `backend/utils/queryHelpers.js`.
- `activity_payment.dfy` … `activity_sg.dfy`: the controllers of the same names.

Where the source's intent and its code differ, the model follows the code:

- `insertMember` writes `Members(id, affiliation_date)` with `id` set to the person's id.
  The discount engine, however, recognises a member through `Members.id_person`. A
  member created by that handler therefore has a NULL `id_person` and is billed as a
  non-member; `PersonsController.NewMemberGetsNoDiscount` proves this.
- The SP payments figure sums `amount` over the rows of a join in which a guest's
  presence is linked both to the guest and to the person of the member who brought them. A
  payment is therefore counted once per linked person of the SP (`SPActivityController.SpPaid`).
  The same join feeds `getSPActivityPresences`, so such a guest's presence is listed twice and
  its price enters the pair's `total_price` twice (`SPActivityController.TwoLinkedPersonsTwoRows`
  with `SPActivityController.GetSPActivityPresences`).
- `insertActivityPresence` stores a request that omits both attendee fields as a presence
  with neither member nor person (see "## Findings"). The handler models the code as
  written; the corrected check is stated and proved beside it.
- `remaining_balance` is never clamped, so it is negative after an overpayment.

## Model

| member | source | states |
|---|---|---|
| DiscountService.GetDiscountConstants | backend/utils/discountService.js:4-12 | the rate and guest threshold are those of the first policy row, and rate 0 with threshold 0 when the table is empty |
| DiscountService.CountPeopleBroughtByMember | backend/utils/discountService.js:14-27 | the guest count is at most the number of presences, and is 0 exactly when no row has this member, this activity and a non-null `id_person` |
| DiscountService.CalculateDiscountedPrice | backend/utils/discountService.js:42-72 | a non-member pays the original price with no discount and reports discount, guests and threshold 0; a member reports discount = `remise`, minimum = `nbpersonne` and the guest count, even without a discount; `hasDiscount` holds iff member, count ≥ `nbpersonne` and `remise` > 0; the discounted price is `price - price*remise` when discounted and `price` otherwise |
| DiscountService.CalculateActualPrice | backend/utils/discountService.js:74-77 | is exactly the discounted price of the full computation |
| DiscountService.DiscountedPriceBounded | backend/utils/discountService.js:60-65 | with `remise` in [0, 1] and a non-negative price, the charged price lies in [0, price] |
| DiscountService.NoPolicyNoDiscount | backend/utils/discountService.js:4-12 | with no policy row no presence is discounted and the price is unchanged |
| DiscountService.CountAppend | backend/utils/discountService.js:14-27 | adding one presence raises the guest count by one exactly when that row is a guest brought by this member to this activity |
| DiscountService.OtherRowsDoNotCount | backend/utils/discountService.js:17-19 | rows at other activities, own-attendance rows and rows of other members leave the guest count unchanged |
| PriceCalculator.TotalExpected | backend/utils/priceCalculator.js:5-19 | the expected total of an empty presence list is 0 |
| PriceCalculator.CalculateTotalExpectedPrice | backend/utils/priceCalculator.js:5-19 | the accumulating loop returns the sum of each presence's actual price, computed from its own member, activity and person ids at one shared base price |
| PriceCalculator.TotalExpectedAppend | backend/utils/priceCalculator.js:8-16 | one more presence adds exactly its own actual price to the total |
| PriceCalculator.TotalExpectedConcat | backend/utils/priceCalculator.js:8-16 | the total over two lists is the sum of their totals |
| PriceCalculator.TotalWithoutDiscount | backend/utils/priceCalculator.js:8-16 | when no presence is discounted the total is count × base price |
| PriceCalculator.TotalAtMostBase | backend/utils/priceCalculator.js:8-16 | with `remise` in [0, 1] and a non-negative price, the total lies between 0 and the undiscounted total |
| PriceCalculator.TotalBounded | backend/utils/priceCalculator.js:8-16 | with `remise` in [0, 1] and a non-negative price, 0 ≤ total ≤ count × base price |
| PriceCalculator.FormatFinancialResult | backend/utils/priceCalculator.js:21-28 | every other field is passed through, `total_paid` is kept as given, and a missing figure becomes 0 |
| QueryHelpers.GetPresenceDetails | backend/utils/queryHelpers.js:5-15 | an unknown presence, or one whose activity is missing, gives no result; otherwise the price of the presence's own activity, its member and activity, and `COALESCE(id_person, id_member)` as person |
| QueryHelpers.GetTotalPayments | backend/utils/queryHelpers.js:17-25 | 0 when no payment targets the presence |
| QueryHelpers.TotalPaymentsAppend | backend/utils/queryHelpers.js:17-25 | a new payment adds its amount to its own presence's total and changes no other presence's total |
| QueryHelpers.GetActivityPresences | backend/utils/queryHelpers.js:70-81 | exactly the presences of the activity, each with the coalesced person id, and nothing for an activity without presences |
| QueryHelpers.OwnMemberIds | backend/utils/queryHelpers.js:30-37 | an id is listed iff some own-attendance row (`id_person` NULL) of the activity carries it as `id_member` |
| QueryHelpers.GuestPersonIds | backend/utils/queryHelpers.js:38-45 | an id is listed iff some row of the activity carries it as `id_person` |
| QueryHelpers.ActivityPaid | backend/utils/queryHelpers.js:46-53 | an activity without presences has nothing paid |
| QueryHelpers.GetActivitiesWithBasicCounts | backend/utils/queryHelpers.js:27-68 | one row per activity: its id, price and date, the number of distinct own-attendance members, the number of distinct guests, and the payments on its presences |
| QueryHelpers.CountsBounded | backend/utils/queryHelpers.js:27-68 | the distinct counts are at most the rows they come from, and an unattended activity reports 0 members, 0 guests and 0 paid |
| ActivityPaymentController.GetAllPresences | backend/controllers/ActivityPaymentController.js:5-34 | every listed row is one presence kept by the `DISTINCT ON` rule: it joins a person and an activity, and no presence with the same (person, activity) has a larger id |
| ActivityPaymentController.KeptFrom | backend/controllers/ActivityPaymentController.js:8-26 | the listing of a suffix of the table holds exactly the kept presences of that suffix |
| ActivityPaymentController.KeptKeysDiffer | backend/controllers/ActivityPaymentController.js:8-26 | two distinct kept presences never share a (person, activity) key |
| ActivityPaymentController.AllPresencesDistinct | backend/controllers/ActivityPaymentController.js:8-26 | the listing has at most one row per (person, activity) |
| ActivityPaymentController.KeptWinner | backend/controllers/ActivityPaymentController.js:8-26 | every joinable presence has a kept presence with the same key and an id at least its own |
| ActivityPaymentController.EveryPresenceListed | backend/controllers/ActivityPaymentController.js:8-26 | every presence that joins a person and an activity is represented in the listing by a row with the same key and a presence id at least its own |
| ActivityPaymentController.GetPresenceBalance | backend/controllers/ActivityPaymentController.js:36-77 | a missing id is rejected and an unknown presence is not found; otherwise total price = discounted price, total paid = the presence's payments, remaining = total − paid with no clamping; the discount details report whether a discount applies, the rate, the guests brought, the threshold, membership, and discount amount = original − total |
| ActivityPaymentController.BalanceIgnoresOtherPayments | backend/controllers/ActivityPaymentController.js:36-77 | a payment on another presence leaves this presence's balance unchanged |
| ActivityPaymentController.PaymentsFrame | backend/controllers/ActivityPaymentController.js:49-72 | the details and price of a presence do not depend on the payments table |
| ActivityPaymentController.Authorize | backend/controllers/ActivityPaymentController.js:79-135 | a missing, zero or non-positive amount or presence id is invalid; an unknown presence is not found; an amount above discounted price − paid is refused with that remaining balance and whether a discount applied; otherwise one payment of the presence's activity and the given amount under a fresh id, dated today; the discount details are present exactly when a discount applies and then carry the original price, the discounted price, the rate and the guests brought |
| ActivityPaymentController.PaymentKeepsCeiling | backend/controllers/ActivityPaymentController.js:99-118 | if every presence's payments are within its discounted price before a call, they still are after it |
| ActivityPaymentController.PayInFull | backend/controllers/ActivityPaymentController.js:99-108 | paying exactly the remaining balance is accepted and leaves 0 remaining, after which any positive payment is refused with remaining balance 0 |
| ActivityPaymentController.InsertActivityPayment | backend/controllers/ActivityPaymentController.js:79-135 | the reply is the authorisation decision on the state before the call; the payments table gets that one row appended on accept and nothing else changes; the payment ceiling is preserved |
| ActivityPresenceController.GetPersons | backend/controllers/ActivityPresenceController.js:19-34 | exactly the persons that no member row references through `id_person` |
| ActivityPresenceController.EmptyToNull | backend/controllers/ActivityPresenceController.js:55-56 | an empty string becomes null and any other value is kept |
| ActivityPresenceController.CheckPresenceAsWritten | backend/controllers/ActivityPresenceController.js:55-89 | the checks as written, each outcome as an iff: a falsy activity is rejected; then "no attendee" exactly when both fields are null or empty (an absent field passes); then the person duplicate exactly when some row has this `id_person` at the activity; then the member duplicate exactly when some row, own or guest, has this `id_member` there; acceptance exactly when no rule fails, with the given fields |
| ActivityPresenceController.OmittedAttendeesAccepted | backend/controllers/ActivityPresenceController.js:64-66 | a request that omits both attendee fields passes the written check and yields a row with neither member nor person |
| ActivityPresenceController.CheckPresence | backend/controllers/ActivityPresenceController.js:55-89 | the corrected checks, each outcome as an iff: a falsy activity is rejected; then "no attendee" exactly when neither field has a value, absent included; then the person duplicate and the member duplicate as in the written check; acceptance exactly when no rule fails, with the given fields |
| ActivityPresenceController.OmittedAttendeesRejected | backend/controllers/ActivityPresenceController.js:64-66 | the corrected check refuses the request that omits both attendee fields |
| ActivityPresenceController.AsWrittenDiffersOnlyOnAbsent | backend/controllers/ActivityPresenceController.js:55-66 | the two checks disagree exactly when the activity is given, neither attendee has a value and at least one field is absent; there the written check accepts an empty attendee |
| ActivityPresenceController.RowOf | backend/controllers/ActivityPresenceController.js:92-102 | the inserted row gets an id no existing presence has |
| ActivityPresenceController.AppendKeepsUnique | backend/controllers/ActivityPresenceController.js:69-102 | appending a row whose person and member are not yet at its activity keeps (person, activity) and (member, activity) unique |
| ActivityPresenceController.RegistrationKeepsUnique | backend/controllers/ActivityPresenceController.js:55-102 | a registration the written check accepts, the row without attendee included, keeps (person, activity) and (member, activity) unique in the table |
| ActivityPresenceController.CorrectedRegistrationKeepsUnique | backend/controllers/ActivityPresenceController.js:55-102 | the same for a registration the corrected check accepts |
| ActivityPresenceController.OwnPresenceBringsNobody | backend/controllers/ActivityPresenceController.js:80-89 | in a table kept unique by the handler, a member's own presence has no guests counted for it at that activity |
| ActivityPresenceController.OwnPresenceDiscountNeedsZeroThreshold | backend/controllers/ActivityPresenceController.js:80-89 | hence in such a table a member's own attendance is discounted only when the guest threshold is 0 or less |
| ActivityPresenceController.InsertActivityPresence | backend/controllers/ActivityPresenceController.js:50-112 | the reply is the written check's decision on the table before the call: a rejection leaves the ledger unchanged and returns the first failing rule; an acceptance, the omitted-attendee request included, appends exactly one row with the given fields under a fresh id; uniqueness of attendance is preserved |
| ActivitiesController.GetPriceConstraints | backend/controllers/ActivitiesController.js:4-12 | the price band of the first policy row, and none when the table is empty |
| ActivitiesController.CheckActivity | backend/controllers/ActivitiesController.js:15-42 | the checks run in the order date (strictly after today), priority (1 to 10), band present, price inside the inclusive band, and only the first failure is reported; acceptance iff all hold |
| ActivitiesController.NewActivity | backend/controllers/ActivitiesController.js:45-51 | the new activity gets an id no existing activity has |
| ActivitiesController.InsertActivity | backend/controllers/ActivitiesController.js:15-58 | a rejection changes nothing; success appends exactly one activity with the given fields; every activity stays valid against the band |
| ActivitiesController.AcceptedActivityIsValid | backend/controllers/ActivitiesController.js:22-51 | an accepted activity has a future date, a priority in 1..10 and a price in the band, and appending it preserves validity |
| ConstantController.GetConstant | backend/controllers/ConstantController.js:4-15 | the first policy row, or not-found exactly when the table is empty |
| ConstantController.SetPolicy | backend/controllers/ConstantController.js:25-30 | every row gets the new rate and threshold together, as given, and keeps its price band |
| ConstantController.UpdateConstant | backend/controllers/ConstantController.js:17-41 | a missing rate or threshold is rejected with nothing written; an empty table is not-found with nothing written; otherwise the policy rows are rewritten and the first is returned |
| ConstantController.UpdateThenRead | backend/controllers/ConstantController.js:25-30 | after an update the discount engine reads the new rate and threshold, the row can be read back, and the price band is the one before |
| ConstantController.UpdateKeepsActivitiesValid | backend/controllers/ConstantController.js:25-30 | a policy update never invalidates existing activities |
| PersonsController.NewPerson | backend/controllers/PersonsController.js:15-20 | the new person gets an id no existing person has |
| PersonsController.InsertPerson | backend/controllers/PersonsController.js:4-30 | an unknown SP is rejected with nothing written; otherwise exactly one person with the given fields is appended; references to SPs and persons stay valid |
| PersonsController.InsertMember | backend/controllers/PersonsController.js:33-59 | an unknown person is rejected with nothing written; otherwise one member whose id is the person id is appended, with no check for an existing membership |
| PersonsController.NewMemberNotRecognised | backend/controllers/PersonsController.js:44-49 | a member row written by this handler does not change who the discount engine recognises as a member |
| PersonsController.NewMemberGetsNoDiscount | backend/controllers/PersonsController.js:44-49 | a person made a member only through this handler still gets no discount |
| MemberStateController.StartDateOrDefault | backend/controllers/MemberStateController.js:10-10 | a missing start date is 2025-04-01 |
| MemberStateController.EndDateOrDefault | backend/controllers/MemberStateController.js:11-14 | a missing end date is today |
| MemberStateController.MembersQuery | backend/controllers/MemberStateController.js:16-25 | exactly the (member, person) pairs joined through `id_person` |
| MemberStateController.ListedMembersAreMembers | backend/controllers/MemberStateController.js:16-25 | every listed member's person is recognised as a member by the discount engine |
| MemberStateController.SelectPresencesExactly | backend/controllers/MemberStateController.js:59-73 | the selection holds exactly the selected presences, each with its own activity's price |
| MemberStateController.GetMemberPresencesExactly | backend/controllers/MemberStateController.js:59-73 | exactly the presences with this `id_member`, `id_person` NULL and an activity dated inside [start, end], each priced at its own activity's price, and nothing of another member |
| MemberStateController.PaidOn | backend/controllers/MemberStateController.js:75-87 | 0 when no payment targets such a presence |
| MemberStateController.PaidOnAppend | backend/controllers/MemberStateController.js:75-87 | a new payment raises the paid figure by its amount exactly when it targets one of those presences |
| MemberStateController.MemberAmountDue | backend/controllers/MemberStateController.js:89-101 | the amount due of no presences is 0 |
| MemberStateController.MemberAmountDueAppend | backend/controllers/MemberStateController.js:89-101 | one more presence adds its own discounted price, computed at its own activity |
| MemberStateController.CalculateMemberAmountDue | backend/controllers/MemberStateController.js:89-101 | the loop returns the sum of each presence's discounted price |
| MemberStateController.MemberStateOf | backend/controllers/MemberStateController.js:30-50 | activity count = number of presences, due = the discounted sum, paid = payments on those presences, remaining = due − paid unclamped, and no total price |
| MemberStateController.ProcessMember | backend/controllers/MemberStateController.js:30-50 | the loop body builds exactly the member's row |
| MemberStateController.GetMemberStates | backend/controllers/MemberStateController.js:5-57 | with the defaulted period, one row per joined member, in the join's order |
| MemberWithPersonsController.CalculatePersonsAmountDue | backend/controllers/MemberWithPersonsController.js:127-131 | the guests' base prices summed with no discount: 0 when empty, non-negative for non-negative prices |
| MemberWithPersonsController.MemberDueAtMostBase | backend/controllers/MemberWithPersonsController.js:29-57 | with `remise` in [0, 1], a member's discounted due lies between 0 and the undiscounted sum of the same presences |
| MemberWithPersonsController.NonMemberOwesBase | backend/controllers/MemberWithPersonsController.js:29-57 | a payer the engine does not recognise owes the undiscounted sum |
| MemberWithPersonsController.GetUniquePersonsCount | backend/controllers/MemberWithPersonsController.js:133-139 | the number of distinct `id_person` values |
| MemberWithPersonsController.UniquePersonsBounded | backend/controllers/MemberWithPersonsController.js:133-139 | the distinct count is at most the number of guest presences, and 0 exactly when there are none |
| MemberWithPersonsController.OwnAndGuestPartition | backend/controllers/MemberWithPersonsController.js:66-97 | own and guest rows partition the member's presences in the period |
| MemberWithPersonsController.PaidSplits | backend/controllers/MemberWithPersonsController.js:99-125 | own payments plus guest payments are every payment on the member's presences in the period, each counted once |
| MemberWithPersonsController.ReportRowOf | backend/controllers/MemberWithPersonsController.js:29-57 | due = own discounted due + guests' base prices, paid = own paid + guests' paid, remaining = due − paid, activities = own presences, persons brought = distinct guests |
| MemberWithPersonsController.ReportPaidIsPeriodPaid | backend/controllers/MemberWithPersonsController.js:41-43 | the report's paid figure is all payments on the member's presences in the period |
| MemberWithPersonsController.ProcessMember | backend/controllers/MemberWithPersonsController.js:29-57 | the loop body builds exactly the member's row |
| MemberWithPersonsController.ReportRows | backend/controllers/MemberWithPersonsController.js:29-57 | the rows of the first n members number n |
| MemberWithPersonsController.ReportRowsIndex | backend/controllers/MemberWithPersonsController.js:29-57 | row i of the report is member i's row |
| MemberWithPersonsController.ProcessMembers | backend/controllers/MemberWithPersonsController.js:29-57 | the loop pushes one row per joined member, in order |
| MemberWithPersonsController.GetMemberWithPersonsReport | backend/controllers/MemberWithPersonsController.js:11-57 | a missing start or end date is rejected, and only then; otherwise one row per joined member |
| ActivityStateController.ActivityStateOf | backend/controllers/ActivityStateController.js:10-32 | counts passed through; total price = the expected total of all the activity's presences at its price; remaining = total − paid |
| ActivityStateController.ProcessActivity | backend/controllers/ActivityStateController.js:11-31 | the loop body builds exactly the activity's row |
| ActivityStateController.ProcessRows | backend/controllers/ActivityStateController.js:10-32 | one row per input row, in order |
| ActivityStateController.GetActivityStates | backend/controllers/ActivityStateController.js:5-39 | one row per row of the basic-counts query |
| ActivityStateController.ActivityStateRow | backend/controllers/ActivityStateController.js:11-18 | row i reports activity i's expected total and that total less the payments on its presences |
| ActivityStateController.UnattendedActivityState | backend/controllers/ActivityStateController.js:10-32 | an activity nobody attended reports 0 owed, 0 paid, 0 remaining and no members |
| SPActivityController.LinkCount | backend/controllers/SPActivityController.js:62-84 | a presence yields no joined row for the SP exactly when none of its linked persons is in the SP |
| SPActivityController.SpPaid | backend/controllers/SPActivityController.js:73-84 | nothing is paid to a pair with no attributed payment |
| SPActivityController.SelectSpPresences | backend/controllers/SPActivityController.js:107-120 | one row per (presence, linked person of the SP) pair, so as many rows as joined rows; every row is a linked presence at the activity with the coalesced person id |
| SPActivityController.SelectSpPresencesComplete | backend/controllers/SPActivityController.js:107-120 | every presence at the activity linked to a person of the SP yields its row |
| SPActivityController.GetSPActivityPresences | backend/controllers/SPActivityController.js:107-120 | sound, complete and with the join's multiplicity: every row is a presence at the activity whose guest, or whose bringing member's person, belongs to the SP, with the coalesced person id; every such presence is listed; the number of rows is the number of joined rows; none when nothing is linked |
| SPActivityController.TwoLinkedPersonsTwoRows | backend/controllers/SPActivityController.js:107-120 | a presence linked to two persons of the SP, a guest and the member who brought them, yields at least two joined rows |
| SPActivityController.ZeroCountNothingAttributed | backend/controllers/SPActivityController.js:36-49 | a zero person count means no presence and no payment is attributed to the pair |
| SPActivityController.SpsInRegion | backend/controllers/SPActivityController.js:99-103 | exactly the SPs in the region, or all when the region is absent or empty |
| SPActivityController.CrossJoin | backend/controllers/SPActivityController.js:95-98 | exactly the rows of every (SP, activity) pair |
| SPActivityController.GetSPActivityBasicData | backend/controllers/SPActivityController.js:59-105 | exactly the rows of every pair of an SP in the region and an activity |
| SPActivityController.BasicDataLength | backend/controllers/SPActivityController.js:95-99 | one row per (SP in the region, activity) pair |
| SPActivityController.SpActivityStateOf | backend/controllers/SPActivityController.js:12-50 | both branches agree: total = the pair's presences at the activity's base price (0 when the person count is 0), paid = the attributed payments, remaining = total − paid |
| SPActivityController.ProcessRow | backend/controllers/SPActivityController.js:13-49 | the loop body, with its branch on the person count, builds exactly the pair's row |
| SPActivityController.SpStatesIndex | backend/controllers/SPActivityController.js:12-50 | row i of the output is input row i's state |
| SPActivityController.ProcessRows | backend/controllers/SPActivityController.js:12-50 | the loop pushes one state per input row, in order |
| SPActivityController.GetSPActivityStates | backend/controllers/SPActivityController.js:5-57 | one output row per row of the basic query, each the pair's state |
| ActivitySGController.Numbered | backend/controllers/ActivitySGController.js:28-58 | one condition per filter; the k-th tests the k-th filter's column through placeholder `$k` |
| ActivitySGController.ParamsOf | backend/controllers/ActivitySGController.js:28-58 | one parameter per filter, in the same order |
| ActivitySGController.NumberedAppend | backend/controllers/ActivitySGController.js:33-58 | pushing one more filter numbers it after those already pushed |
| ActivitySGController.PushFilter | backend/controllers/ActivitySGController.js:33-37 | one push adds the condition at the current index, its parameter, and advances the index |
| ActivitySGController.Clauses | backend/controllers/ActivitySGController.js:61-65 | no WHERE without conditions, otherwise one AND-joined WHERE, and ORDER BY always last |
| ActivitySGController.BuildPaymentAmountsQuery | backend/controllers/ActivitySGController.js:28-65 | the filters present, in the fixed order sp, activity, member, person, become the conditions numbered `$1…`, with parameters aligned |
| ActivitySGController.PersonSummaryFilters | backend/controllers/ActivitySGController.js:240-251 | at most the SP filter and a type filter |
| ActivitySGController.OtherPersonTypeIgnored | backend/controllers/ActivitySGController.js:247-251 | a `person_type` other than 'member' or 'guest' is ignored |
| ActivitySGController.BuildPersonSummaryWhere | backend/controllers/ActivitySGController.js:236-253 | no WHERE without filters; otherwise the numbered conditions with aligned parameters |
| ActivitySGController.AllHoldConcat | backend/controllers/ActivitySGController.js:61-63 | conditions joined by AND hold of two lists iff they hold of each |
| ActivitySGController.NumberedMatchesAll | backend/controllers/ActivitySGController.js:61-63 | with this numbering a row matches the AND-joined conditions exactly when it meets every requested filter |
| ActivitySGController.PaymentAmountsFilterMeaning | backend/controllers/ActivitySGController.js:33-63 | getPaymentAmounts' WHERE keeps a row iff it satisfies each of the SP, activity, member and person filters asked for |
| ActivitySGController.SelectRows | backend/controllers/ActivitySGController.js:61-67 | exactly the view rows matching the conditions |
| ActivitySGController.GetPaymentAmounts | backend/controllers/ActivitySGController.js:4-77 | `total_records` equals the number of rows returned, which are exactly the view rows meeting every filter asked for |
| ActivitySGController.GetOverallStats | backend/controllers/ActivitySGController.js:132-140 | `total_activities` is the row count, and no rows give all zeros |
| ActivitySGController.OverallRemainingIsRevenueLessPaid | backend/controllers/ActivitySGController.js:132-140 | when each row's remaining is its revenue less its paid, the overall remaining is overall revenue less overall paid |
| ActivitySGController.OverallParticipantsSplit | backend/controllers/ActivitySGController.js:132-140 | when each row's participants are its members plus guests, the same holds of the totals |

## Left out

- The Postgres driver (`backend/db.js`) is not part of this model. The SQL text as executed is not modelled either: queries are functions over the tables, and the filter builders produce a structured clause list rather than a string.
- The `mv_payment_amounts` view and `refresh_all_payment_views()` are not part of this model, because their definitions are not in the repository. The payment-view reports take the view's rows as an input.
- The other queries of `getActivitySituation` are not modelled: its grouped revenue, its paid totals and its fully-paid listing. Only its `overallStats` sums are. `getActivityPaymentDetails` and `refreshPaymentViews` are not modelled because they are single view queries.
- The plain listing reads are not modelled: `getPersons` and `getSPs` of `PersonsController.js`, and the unfiltered table dumps listed beside them.
- Concurrency is not modelled. Every handler runs as one sequential step, so the check-then-insert race of `insertActivityPayment` and the `Promise.all` reads of the reports are out of scope.
- Floating point is not modelled. Amounts are exact reals, and there is no `parseFloat`/`parseInt` coercion of query results, no `Intl.NumberFormat` and no string amounts from JSON.
- FormatFinancialResult: does not round `total_price` and `remaining_balance` to two decimals (`toFixed(2)`), because amounts are exact reals.
- Date parsing and the clock are not modelled. Dates are `yyyymmdd` integers, and "today" is a parameter.
- HTTP status codes, response shaping, logging and the catch-all 500 replies are not modelled. Errors are values of result datatypes.
- GetDiscountConstants: a failed read returning rate 0 and threshold 0 is not modelled, because reads of the model cannot fail. The same holds for `countPeopleBroughtByMember` returning 0 and `isPersonMember` returning false on a failed read.
- CheckActivity: request fields are typed. A missing `priority` or `price`, which in the source makes every comparison false and so passes the range checks, is not represented.
- GetAllPresences: rows keep table order; the `ORDER BY` of the query is not modelled.
- GetActivitiesWithBasicCounts: rows keep table order; `ORDER BY a.date DESC` is not modelled.
- MembersQuery: rows keep table order; `ORDER BY p.last_name, p.first_name` is not modelled. So GetMemberStates and GetMemberWithPersonsReport do not state that order.
- GetSPActivityBasicData: rows keep table order; `ORDER BY sp.description, a.date DESC` is not modelled.
- GetPaymentAmounts: rows keep view order; the `ORDER BY` clause is modelled only as present.
- Database constraints (primary and foreign keys, NOT NULL) are not assumed. Key lookups take the first row with the id, and inserts take an id above every id in the table.
- UpdateConstant: an explicit JSON `null` rate or threshold is not modelled. It passes the source's `=== undefined` test and is stored as NULL, but the model's policy values cannot be NULL, so the model rejects it as a missing field.
- Routing (`backend/server.js`) and the React frontend are not part of this model.

## Findings

| source | as written | input that shows it | evidently intended | confidence | as-written member | corrected member |
|---|---|---|---|---|---|---|
| backend/controllers/ActivityPresenceController.js:55-66 | The "member or person must be specified" check uses `=== null`, so a request body that omits both `id_member` and `id_person` passes it (they are `undefined`). Both then go to the INSERT as NULL. | `{ "id_activity": 1 }` | A request with no attendee is rejected, so every presence names a member or a person | not executed | ActivityPresenceController.CheckPresenceAsWritten, ActivityPresenceController.OmittedAttendeesAccepted | ActivityPresenceController.CheckPresence, ActivityPresenceController.OmittedAttendeesRejected |
