/** The parameterised report filters and the overall statistics of the payment-view
    reports (backend/controllers/ActivitySGController.js). The view the reports read is
    taken as a sequence of rows carrying the columns the filters test. */
module ActivitySGController {
  import opened Ledger

  /** Which column a filter tests. */
  datatype FilterKind = SpFilter | ActivityFilter | MemberFilter | PersonFilter | PersonTypeFilter

  /** A bound query parameter; the query-string values are already parsed. */
  datatype Param = IntParam(i: int) | TextParam(t: string)

  /** A requested filter with the value it binds. */
  datatype Filter = Filter(kind: FilterKind, param: Param)

  /** A WHERE condition: the column it tests and its placeholder number `$k`. */
  datatype Condition = Condition(kind: FilterKind, placeholder: nat)

  /** The parts of the query after the view: an AND-joined WHERE, then ORDER BY. */
  datatype Clause = Where(conditions: seq<Condition>) | OrderBy

  /** The filters getPaymentAmounts applies, in its fixed order sp, activity, member,
      person; an absent (or empty) query value adds none. */
  function PaymentAmountsFilters(spId: Option<int>, activityId: Option<int>, memberId: Option<int>, personId: Option<int>)
    : (r: seq<Filter>)
    ensures |r| <= 4
  {
    (if spId.Some? then [Filter(SpFilter, IntParam(spId.value))] else [])
    + (if activityId.Some? then [Filter(ActivityFilter, IntParam(activityId.value))] else [])
    + (if memberId.Some? then [Filter(MemberFilter, IntParam(memberId.value))] else [])
    + (if personId.Some? then [Filter(PersonFilter, IntParam(personId.value))] else [])
  }

  /** The k-th condition tests the k-th filter's column through placeholder `$k+1`. */
  function Numbered(filters: seq<Filter>): (r: seq<Condition>)
    ensures |r| == |filters|
    ensures forall k :: 0 <= k < |r| ==> r[k].kind == filters[k].kind && r[k].placeholder == k + 1
  {
    seq(|filters|, k requires 0 <= k < |filters| => Condition(filters[k].kind, k + 1))
  }

  function ParamsOf(filters: seq<Filter>): (r: seq<Param>)
    ensures |r| == |filters|
    ensures forall k :: 0 <= k < |r| ==> r[k] == filters[k].param
  {
    seq(|filters|, k requires 0 <= k < |filters| => filters[k].param)
  }

  /** Pushing one more filter numbers it after the ones already pushed. */
  lemma NumberedAppend(filters: seq<Filter>, f: Filter)
    ensures Numbered(filters + [f]) == Numbered(filters) + [Condition(f.kind, |filters| + 1)]
    ensures ParamsOf(filters + [f]) == ParamsOf(filters) + [f.param]
  {
    assert Numbered(filters + [f])[|filters|] == Condition(f.kind, |filters| + 1);
  }

  method PushFilter(conditions: seq<Condition>, params: seq<Param>, paramIndex: nat, f: Filter)
    returns (conditions': seq<Condition>, params': seq<Param>, paramIndex': nat)
    ensures conditions' == conditions + [Condition(f.kind, paramIndex)]
    ensures params' == params + [f.param]
    ensures paramIndex' == paramIndex + 1
  {
    conditions' := conditions + [Condition(f.kind, paramIndex)];
    params' := params + [f.param];
    paramIndex' := paramIndex + 1;
  }

  /** The WHERE clause, when there is one, and the ORDER BY that is always appended. */
  function Clauses(conditions: seq<Condition>): (r: seq<Clause>)
    ensures |r| > 0 && r[|r| - 1] == OrderBy
    ensures |conditions| == 0 <==> r == [OrderBy]
    ensures |conditions| > 0 ==> r == [Where(conditions), OrderBy]
  {
    (if |conditions| > 0 then [Where(conditions)] else []) + [OrderBy]
  }

  /** getPaymentAmounts' query builder: conditions and parameters pushed together while
      `paramIndex` counts up from 1. */
  method BuildPaymentAmountsQuery(spId: Option<int>, activityId: Option<int>, memberId: Option<int>, personId: Option<int>)
    returns (query: seq<Clause>, params: seq<Param>)
    ensures var filters := PaymentAmountsFilters(spId, activityId, memberId, personId);
      && params == ParamsOf(filters)
      && query == Clauses(Numbered(filters))
  {
    var conditions: seq<Condition> := [];
    params := [];
    var paramIndex: nat := 1;
    ghost var pushed: seq<Filter> := [];
    if spId.Some? {
      NumberedAppend(pushed, Filter(SpFilter, IntParam(spId.value)));
      conditions, params, paramIndex := PushFilter(conditions, params, paramIndex, Filter(SpFilter, IntParam(spId.value)));
      pushed := pushed + [Filter(SpFilter, IntParam(spId.value))];
    }
    assert conditions == Numbered(pushed) && params == ParamsOf(pushed) && paramIndex == |pushed| + 1;
    assert pushed == (if spId.Some? then [Filter(SpFilter, IntParam(spId.value))] else []);
    if activityId.Some? {
      NumberedAppend(pushed, Filter(ActivityFilter, IntParam(activityId.value)));
      conditions, params, paramIndex := PushFilter(conditions, params, paramIndex, Filter(ActivityFilter, IntParam(activityId.value)));
      pushed := pushed + [Filter(ActivityFilter, IntParam(activityId.value))];
    }
    assert conditions == Numbered(pushed) && params == ParamsOf(pushed) && paramIndex == |pushed| + 1;
    assert pushed == (if spId.Some? then [Filter(SpFilter, IntParam(spId.value))] else [])
      + (if activityId.Some? then [Filter(ActivityFilter, IntParam(activityId.value))] else []);
    if memberId.Some? {
      NumberedAppend(pushed, Filter(MemberFilter, IntParam(memberId.value)));
      conditions, params, paramIndex := PushFilter(conditions, params, paramIndex, Filter(MemberFilter, IntParam(memberId.value)));
      pushed := pushed + [Filter(MemberFilter, IntParam(memberId.value))];
    }
    assert conditions == Numbered(pushed) && params == ParamsOf(pushed) && paramIndex == |pushed| + 1;
    assert pushed == (if spId.Some? then [Filter(SpFilter, IntParam(spId.value))] else [])
      + (if activityId.Some? then [Filter(ActivityFilter, IntParam(activityId.value))] else [])
      + (if memberId.Some? then [Filter(MemberFilter, IntParam(memberId.value))] else []);
    if personId.Some? {
      NumberedAppend(pushed, Filter(PersonFilter, IntParam(personId.value)));
      conditions, params, paramIndex := PushFilter(conditions, params, paramIndex, Filter(PersonFilter, IntParam(personId.value)));
      pushed := pushed + [Filter(PersonFilter, IntParam(personId.value))];
    }
    assert conditions == Numbered(pushed) && params == ParamsOf(pushed);
    assert pushed == PaymentAmountsFilters(spId, activityId, memberId, personId);
    query := [];
    if |conditions| > 0 {
      query := query + [Where(conditions)];
    }
    query := query + [OrderBy];
  }

  /** The filters getPersonPaymentSummary applies: sp, then `person_type` only when it is
      'member' or 'guest'. */
  function PersonSummaryFilters(spId: Option<int>, personType: Option<string>): (r: seq<Filter>)
    ensures |r| <= 2
  {
    (if spId.Some? then [Filter(SpFilter, IntParam(spId.value))] else [])
    + (if personType.Some? && personType.value != "" && personType.value in ["member", "guest"]
       then [Filter(PersonTypeFilter, TextParam(personType.value))] else [])
  }

  /** Any other `person_type` is ignored: the filters are those of no type at all. */
  lemma OtherPersonTypeIgnored(spId: Option<int>, t: string)
    requires t != "member" && t != "guest"
    ensures PersonSummaryFilters(spId, Some(t)) == PersonSummaryFilters(spId, None)
  {
    assert !(t in ["member", "guest"]);
  }

  /** getPersonPaymentSummary's builder: WHERE only when a filter applies; the summary
      query groups rather than orders by the filters, so no ORDER BY is added here. */
  method BuildPersonSummaryWhere(spId: Option<int>, personType: Option<string>)
    returns (whereClause: seq<Clause>, params: seq<Param>)
    ensures var filters := PersonSummaryFilters(spId, personType);
      && params == ParamsOf(filters)
      && (|filters| == 0 <==> whereClause == [])
      && (|filters| > 0 ==> whereClause == [Where(Numbered(filters))])
  {
    var conditions: seq<Condition> := [];
    params := [];
    var paramIndex: nat := 1;
    ghost var pushed: seq<Filter> := [];
    if spId.Some? {
      NumberedAppend(pushed, Filter(SpFilter, IntParam(spId.value)));
      conditions, params, paramIndex := PushFilter(conditions, params, paramIndex, Filter(SpFilter, IntParam(spId.value)));
      pushed := pushed + [Filter(SpFilter, IntParam(spId.value))];
    }
    if personType.Some? && personType.value != "" && personType.value in ["member", "guest"] {
      NumberedAppend(pushed, Filter(PersonTypeFilter, TextParam(personType.value)));
      conditions, params, paramIndex := PushFilter(conditions, params, paramIndex, Filter(PersonTypeFilter, TextParam(personType.value)));
      pushed := pushed + [Filter(PersonTypeFilter, TextParam(personType.value))];
    }
    assert conditions == Numbered(pushed) && params == ParamsOf(pushed);
    assert pushed == PersonSummaryFilters(spId, personType);
    whereClause := if |conditions| > 0 then [Where(conditions)] else [];
  }

  /** The columns of a payment-view row the filters test. */
  datatype ViewRow = ViewRow(presenceId: int, idActivity: int, personId: Option<int>, idMember: Option<int>, personType: string)

  /** One condition on a row with the parameter its placeholder names. */
  predicate Holds(s: Store, row: ViewRow, kind: FilterKind, param: Param) {
    match kind
    case SpFilter => param.IntParam? && InSp(s, row, param.i)
    case ActivityFilter => param.IntParam? && row.idActivity == param.i
    case MemberFilter => param.IntParam? && SqlEq(row.idMember, Some(param.i))
    case PersonFilter => param.IntParam? && SqlEq(row.personId, Some(param.i))
    case PersonTypeFilter => param.TextParam? && row.personType == param.t
  }

  /** The row passes every condition (they are AND-joined), each read with `params[$k - 1]`. */
  predicate Matches(s: Store, row: ViewRow, conditions: seq<Condition>, params: seq<Param>) {
    forall k :: 0 <= k < |conditions| ==>
      && 1 <= conditions[k].placeholder <= |params|
      && Holds(s, row, conditions[k].kind, params[conditions[k].placeholder - 1])
  }

  predicate InSp(s: Store, row: ViewRow, spId: int) {
    exists p :: p in s.persons && SqlEq(row.personId, Some(p.id)) && p.idSp == spId
  }

  /** Every filter holds of the row. */
  predicate AllHold(s: Store, row: ViewRow, filters: seq<Filter>) {
    |filters| == 0 || (Holds(s, row, filters[0].kind, filters[0].param) && AllHold(s, row, filters[1..]))
  }

  lemma {:induction false} AllHoldConcat(s: Store, row: ViewRow, a: seq<Filter>, b: seq<Filter>)
    ensures AllHold(s, row, a + b) <==> AllHold(s, row, a) && AllHold(s, row, b)
  {
    if |a| > 0 {
      assert (a + b)[1..] == a[1..] + b;
      AllHoldConcat(s, row, a[1..], b);
    } else {
      assert a + b == b;
    }
  }

  lemma {:induction false} AllHoldIndexed(s: Store, row: ViewRow, filters: seq<Filter>)
    ensures AllHold(s, row, filters) <==> forall k :: 0 <= k < |filters| ==> Holds(s, row, filters[k].kind, filters[k].param)
  {
    if |filters| > 0 {
      AllHoldIndexed(s, row, filters[1..]);
      assert forall k :: 1 <= k < |filters| ==> filters[1..][k - 1] == filters[k];
      assert forall k :: 0 <= k < |filters| - 1 ==> filters[1..][k] == filters[k + 1];
    }
  }

  /** With this numbering each condition reads the value of its own filter: a row
      matches exactly when it meets every filter requested. */
  lemma NumberedMatchesAll(s: Store, row: ViewRow, filters: seq<Filter>)
    ensures Matches(s, row, Numbered(filters), ParamsOf(filters)) <==> AllHold(s, row, filters)
  {
    var cs, ps := Numbered(filters), ParamsOf(filters);
    AllHoldIndexed(s, row, filters);
    if Matches(s, row, cs, ps) {
      forall k | 0 <= k < |filters|
        ensures Holds(s, row, filters[k].kind, filters[k].param)
      {
        assert cs[k].placeholder - 1 == k;
      }
    }
    if AllHold(s, row, filters) {
      forall k | 0 <= k < |cs|
        ensures 1 <= cs[k].placeholder <= |ps| && Holds(s, row, cs[k].kind, ps[cs[k].placeholder - 1])
      {
        assert cs[k].placeholder - 1 == k;
      }
    }
  }

  /** The meaning of getPaymentAmounts' filters: every requested one holds. */
  predicate MeetsPaymentFilters(s: Store, row: ViewRow,
                                spId: Option<int>, activityId: Option<int>, memberId: Option<int>, personId: Option<int>) {
    && (spId.Some? ==> InSp(s, row, spId.value))
    && (activityId.Some? ==> row.idActivity == activityId.value)
    && (memberId.Some? ==> SqlEq(row.idMember, memberId))
    && (personId.Some? ==> SqlEq(row.personId, personId))
  }

  /** getPaymentAmounts keeps exactly the view rows that meet every filter asked for. */
  lemma PaymentAmountsFilterMeaning(s: Store, row: ViewRow,
                                    spId: Option<int>, activityId: Option<int>, memberId: Option<int>, personId: Option<int>)
    ensures var filters := PaymentAmountsFilters(spId, activityId, memberId, personId);
      Matches(s, row, Numbered(filters), ParamsOf(filters)) <==> MeetsPaymentFilters(s, row, spId, activityId, memberId, personId)
  {
    var a := if spId.Some? then [Filter(SpFilter, IntParam(spId.value))] else [];
    var b := if activityId.Some? then [Filter(ActivityFilter, IntParam(activityId.value))] else [];
    var c := if memberId.Some? then [Filter(MemberFilter, IntParam(memberId.value))] else [];
    var d := if personId.Some? then [Filter(PersonFilter, IntParam(personId.value))] else [];
    assert a + b + c + d == PaymentAmountsFilters(spId, activityId, memberId, personId);
    NumberedMatchesAll(s, row, a + b + c + d);
    AllHoldConcat(s, row, a + b + c, d);
    AllHoldConcat(s, row, a + b, c);
    AllHoldConcat(s, row, a, b);
    assert AllHold(s, row, a) <==> (spId.Some? ==> InSp(s, row, spId.value));
    assert AllHold(s, row, b) <==> (activityId.Some? ==> row.idActivity == activityId.value);
    assert AllHold(s, row, c) <==> (memberId.Some? ==> SqlEq(row.idMember, memberId));
    assert AllHold(s, row, d) <==> (personId.Some? ==> SqlEq(row.personId, personId));
  }

  function SelectRows(s: Store, view: seq<ViewRow>, conditions: seq<Condition>, params: seq<Param>): (r: seq<ViewRow>)
    ensures |r| <= |view|
    ensures forall row :: row in r <==> row in view && Matches(s, row, conditions, params)
  {
    if |view| == 0 then []
    else
      assert forall row :: row in view ==> row == view[0] || row in view[1..];
      (if Matches(s, view[0], conditions, params) then [view[0]] else []) + SelectRows(s, view[1..], conditions, params)
  }

  datatype PaymentAmounts = PaymentAmounts(totalRecords: nat, payments: seq<ViewRow>)

  /** getPaymentAmounts: the matching rows and their count. ORDER BY is not modelled. */
  function GetPaymentAmounts(s: Store, view: seq<ViewRow>,
                             spId: Option<int>, activityId: Option<int>, memberId: Option<int>, personId: Option<int>)
    : (r: PaymentAmounts)
    ensures r.totalRecords == |r.payments| <= |view|
    ensures forall row :: row in r.payments <==>
      row in view && MeetsPaymentFilters(s, row, spId, activityId, memberId, personId)
  {
    var filters := PaymentAmountsFilters(spId, activityId, memberId, personId);
    var rows := SelectRows(s, view, Numbered(filters), ParamsOf(filters));
    forall row | row in view
      ensures Matches(s, row, Numbered(filters), ParamsOf(filters)) <==>
        MeetsPaymentFilters(s, row, spId, activityId, memberId, personId)
    {
      PaymentAmountsFilterMeaning(s, row, spId, activityId, memberId, personId);
    }
    PaymentAmounts(|rows|, rows)
  }

  /** One row of the activity-situation query; the SUM and COALESCE results as read. */
  datatype SituationRow = SituationRow(
    totalParticipants: int,
    totalMembers: int,
    totalGuests: int,
    totalRevenue: Option<real>,
    totalPaid: Option<real>,
    remainingBalance: Option<real>)

  datatype OverallStats = OverallStats(
    totalActivities: nat,
    totalParticipants: int,
    totalMembers: int,
    totalGuests: int,
    totalRevenue: real,
    totalPaid: real,
    remainingBalance: real)

  function SumParticipants(rows: seq<SituationRow>): int {
    if |rows| == 0 then 0 else rows[0].totalParticipants + SumParticipants(rows[1..])
  }

  function SumMembers(rows: seq<SituationRow>): int {
    if |rows| == 0 then 0 else rows[0].totalMembers + SumMembers(rows[1..])
  }

  function SumGuests(rows: seq<SituationRow>): int {
    if |rows| == 0 then 0 else rows[0].totalGuests + SumGuests(rows[1..])
  }

  /** `x || 0` on a nullable figure. */
  function SumRevenue(rows: seq<SituationRow>): real {
    if |rows| == 0 then 0.0 else rows[0].totalRevenue.GetOr(0.0) + SumRevenue(rows[1..])
  }

  function SumPaid(rows: seq<SituationRow>): real {
    if |rows| == 0 then 0.0 else rows[0].totalPaid.GetOr(0.0) + SumPaid(rows[1..])
  }

  function SumRemaining(rows: seq<SituationRow>): real {
    if |rows| == 0 then 0.0 else rows[0].remainingBalance.GetOr(0.0) + SumRemaining(rows[1..])
  }

  /** overallStats: the row count and the per-row figures summed. */
  function GetOverallStats(rows: seq<SituationRow>): (r: OverallStats)
    ensures r.totalActivities == |rows|
    ensures |rows| == 0 ==> r == OverallStats(0, 0, 0, 0, 0.0, 0.0, 0.0)
  {
    OverallStats(|rows|, SumParticipants(rows), SumMembers(rows), SumGuests(rows),
                 SumRevenue(rows), SumPaid(rows), SumRemaining(rows))
  }

  /** The query computes `remaining_balance` as revenue less the (coalesced) paid amount. */
  predicate Consistent(row: SituationRow) {
    && row.totalRevenue.Some? && row.totalPaid.Some?
    && row.remainingBalance == Some(row.totalRevenue.value - row.totalPaid.value)
  }

  /** When every row is consistent, the overall remaining balance is the overall revenue
      less the overall paid amount. */
  lemma {:induction false} OverallRemainingIsRevenueLessPaid(rows: seq<SituationRow>)
    requires forall i :: 0 <= i < |rows| ==> Consistent(rows[i])
    ensures GetOverallStats(rows).remainingBalance == GetOverallStats(rows).totalRevenue - GetOverallStats(rows).totalPaid
  {
    if |rows| > 0 {
      assert Consistent(rows[0]);
      OverallRemainingIsRevenueLessPaid(rows[1..]);
    }
  }

  /** Every participant is counted as a member or a guest when each row's counts add up. */
  lemma {:induction false} OverallParticipantsSplit(rows: seq<SituationRow>)
    requires forall i :: 0 <= i < |rows| ==> rows[i].totalParticipants == rows[i].totalMembers + rows[i].totalGuests
    ensures GetOverallStats(rows).totalParticipants == GetOverallStats(rows).totalMembers + GetOverallStats(rows).totalGuests
  {
    if |rows| > 0 {
      assert rows[0].totalParticipants == rows[0].totalMembers + rows[0].totalGuests;
      OverallParticipantsSplit(rows[1..]);
    }
  }
}
