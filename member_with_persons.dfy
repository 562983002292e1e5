/** The member report with the guests each member brought
    (backend/controllers/MemberWithPersonsController.js). */
module MemberWithPersonsController {
  import opened Ledger
  import opened DiscountService
  import opened PriceCalculator
  import opened MemberStateController

  /** calculatePersonsAmountDue: the guests' base prices summed, with no discount. */
  function CalculatePersonsAmountDue(presences: seq<MemberPresence>): (total: real)
    ensures |presences| == 0 ==> total == 0.0
    ensures (forall x :: x in presences ==> x.activityPrice >= 0.0) ==> total >= 0.0
  {
    if |presences| == 0 then 0.0
    else
      assert forall x :: x in presences[1..] ==> x in presences;
      presences[0].activityPrice + CalculatePersonsAmountDue(presences[1..])
  }

  /** With a rate in [0, 1] and non-negative prices, a member's discounted due lies
      between 0 and what the same presences cost undiscounted. */
  lemma {:induction false} MemberDueAtMostBase(s: Store, presences: seq<MemberPresence>, personId: Option<int>)
    requires |s.constants| > 0 ==> 0.0 <= s.constants[0].remise <= 1.0
    requires forall x :: x in presences ==> x.activityPrice >= 0.0
    ensures 0.0 <= MemberAmountDue(s, presences, personId) <= CalculatePersonsAmountDue(presences)
  {
    if |presences| > 0 {
      var x := presences[0];
      DiscountedPriceBounded(s, x.activityPrice, x.idMember, x.idActivity, personId);
      assert forall y :: y in presences[1..] ==> y in presences;
      MemberDueAtMostBase(s, presences[1..], personId);
    }
  }

  /** A payer the engine does not recognise as a member owes the undiscounted sum. */
  lemma {:induction false} NonMemberOwesBase(s: Store, presences: seq<MemberPresence>, personId: Option<int>)
    requires !IsPersonMember(s.members, personId)
    ensures MemberAmountDue(s, presences, personId) == CalculatePersonsAmountDue(presences)
  {
    if |presences| > 0 {
      NonMemberOwesBase(s, presences[1..], personId);
    }
  }

  function UniquePersons(presences: seq<MemberPresence>): set<Option<int>> {
    set x | x in presences :: x.idPerson
  }

  /** getUniquePersonsCount: the size of the set of `id_person` values. */
  method GetUniquePersonsCount(presences: seq<MemberPresence>) returns (n: nat)
    ensures n == |UniquePersons(presences)|
  {
    var uniquePersons: set<Option<int>> := {};
    for i := 0 to |presences|
      invariant uniquePersons == UniquePersons(presences[..i])
    {
      assert presences[..i + 1] == presences[..i] + [presences[i]];
      assert UniquePersons(presences[..i + 1]) == UniquePersons(presences[..i]) + {presences[i].idPerson} by {
        forall y | y in UniquePersons(presences[..i + 1])
          ensures y in UniquePersons(presences[..i]) + {presences[i].idPerson}
        {
          var x :| x in presences[..i + 1] && x.idPerson == y;
          if x != presences[i] { assert x in presences[..i]; }
        }
      }
      uniquePersons := uniquePersons + {presences[i].idPerson};
    }
    assert presences[..|presences|] == presences;
    n := |uniquePersons|;
  }

  /** The distinct count is at most the number of guest rows, and 0 exactly when there are none. */
  lemma {:induction false} UniquePersonsBounded(presences: seq<MemberPresence>)
    ensures |UniquePersons(presences)| <= |presences|
    ensures |UniquePersons(presences)| == 0 <==> |presences| == 0
  {
    if |presences| > 0 {
      assert presences[0].idPerson in UniquePersons(presences);
      UniquePersonsBounded(presences[1..]);
      assert UniquePersons(presences) == UniquePersons(presences[1..]) + {presences[0].idPerson} by {
        forall y | y in UniquePersons(presences)
          ensures y in UniquePersons(presences[1..]) + {presences[0].idPerson}
        {
          var x :| x in presences && x.idPerson == y;
          if x != presences[0] {
            var k :| 0 <= k < |presences| && presences[k] == x;
            assert presences[1..][k - 1] == x;
          }
        }
        forall y | y in UniquePersons(presences[1..])
          ensures y in UniquePersons(presences)
        {
          var x :| x in presences[1..] && x.idPerson == y;
          assert x in presences;
        }
      }
    }
  }

  /** Any presence of the member at an activity inside the period. */
  predicate InPeriod(acts: seq<Activity>, p: Presence, memberId: int, start: Date, end: Date) {
    && SqlEq(p.idMember, Some(memberId))
    && FindActivity(acts, p.idActivity).Some?
    && start <= FindActivity(acts, p.idActivity).value.date <= end
  }

  /** Own and guest rows split the member's presences in the period: each such row is
      exactly one of the two. */
  lemma OwnAndGuestPartition(acts: seq<Activity>, p: Presence, memberId: int, start: Date, end: Date)
    ensures InPeriod(acts, p, memberId, start, end) <==>
      Selected(acts, p, memberId, start, end, false) || Selected(acts, p, memberId, start, end, true)
    ensures !(Selected(acts, p, memberId, start, end, false) && Selected(acts, p, memberId, start, end, true))
  {
  }

  /** All payments on the member's presences in the period, own and guest alike. */
  function PaidInPeriod(s: Store, pays: seq<Payment>, memberId: int, start: Date, end: Date): real {
    if |pays| == 0 then 0.0
    else
      var p := FindPresence(s.presences, pays[0].idPresence);
      (if p.Some? && InPeriod(s.activities, p.value, memberId, start, end) then pays[0].amount else 0.0)
        + PaidInPeriod(s, pays[1..], memberId, start, end)
  }

  /** memberPaid + personsPaid is every payment on the member's presences in the period,
      each counted once. */
  lemma {:induction false} PaidSplits(s: Store, pays: seq<Payment>, memberId: int, start: Date, end: Date)
    ensures PaidOn(s, pays, memberId, start, end, false) + PaidOn(s, pays, memberId, start, end, true)
         == PaidInPeriod(s, pays, memberId, start, end)
  {
    if |pays| > 0 {
      PaidSplits(s, pays[1..], memberId, start, end);
      var p := FindPresence(s.presences, pays[0].idPresence);
      if p.Some? {
        OwnAndGuestPartition(s.activities, p.value, memberId, start, end);
      }
    }
  }

  datatype MemberWithPersons = MemberWithPersons(
    memberId: int,
    firstName: string,
    lastName: string,
    memberActivities: nat,
    personsBrought: nat,
    totalAmountDue: real)

  /** The formatted row for one member: own presences priced through the discount
      engine, guests at base price, and both payment totals added. */
  function ReportRowOf(s: Store, x: MemberRow, start: Date, end: Date): (f: Formatted<MemberWithPersons>)
    ensures var own := GetMemberPresences(s, x.memberId, start, end, false);
      var guests := GetMemberPresences(s, x.memberId, start, end, true);
      var due := MemberAmountDue(s, own, Some(x.personId)) + CalculatePersonsAmountDue(guests);
      var paid := GetMemberPayments(s, x.memberId, start, end, false) + GetMemberPayments(s, x.memberId, start, end, true);
      && f.fields.memberId == x.memberId
      && f.fields.memberActivities == |own|
      && f.fields.personsBrought == |UniquePersons(guests)|
      && f.fields.totalAmountDue == due
      && f.totalPaid == paid
      && f.remainingBalance == due - paid
      && f.totalPrice == 0.0
  {
    var own := GetMemberPresences(s, x.memberId, start, end, false);
    var guests := GetMemberPresences(s, x.memberId, start, end, true);
    var due := MemberAmountDue(s, own, Some(x.personId)) + CalculatePersonsAmountDue(guests);
    var paid := GetMemberPayments(s, x.memberId, start, end, false) + GetMemberPayments(s, x.memberId, start, end, true);
    FormatFinancialResult(FinancialResult(
      MemberWithPersons(x.memberId, x.firstName, x.lastName, |own|, |UniquePersons(guests)|, due),
      None, Some(paid), Some(due - paid)))
  }

  /** The report's paid figure is every payment on the member's presences in the period. */
  lemma ReportPaidIsPeriodPaid(s: Store, x: MemberRow, start: Date, end: Date)
    ensures ReportRowOf(s, x, start, end).totalPaid == PaidInPeriod(s, s.payments, x.memberId, start, end)
  {
    PaidSplits(s, s.payments, x.memberId, start, end);
  }

  datatype ReportError = DatesRequired

  method ProcessMember(s: Store, x: MemberRow, start: Date, end: Date) returns (f: Formatted<MemberWithPersons>)
    ensures f == ReportRowOf(s, x, start, end)
  {
    var memberPresences := GetMemberPresences(s, x.memberId, start, end, false);
    var personsPresences := GetMemberPresences(s, x.memberId, start, end, true);
    var memberPaid := GetMemberPayments(s, x.memberId, start, end, false);
    var personsPaid := GetMemberPayments(s, x.memberId, start, end, true);
    var memberAmountDue := CalculateMemberAmountDue(s, memberPresences, Some(x.personId));
    var personsAmountDue := CalculatePersonsAmountDue(personsPresences);
    var uniquePersons := GetUniquePersonsCount(personsPresences);
    var totalAmountDue := memberAmountDue + personsAmountDue;
    var totalPaid := memberPaid + personsPaid;
    var remainingBalance := totalAmountDue - totalPaid;
    var fields := MemberWithPersons(x.memberId, x.firstName, x.lastName, |memberPresences|, uniquePersons, totalAmountDue);
    assert fields == ReportRowOf(s, x, start, end).fields;
    f := FormatFinancialResult(FinancialResult(fields, None, Some(totalPaid), Some(remainingBalance)));
  }

  /** The report rows of the first `n` joined members, in order. */
  function ReportRows(s: Store, rows: seq<MemberRow>, n: nat, start: Date, end: Date): (r: seq<Formatted<MemberWithPersons>>)
    requires n <= |rows|
    ensures |r| == n
  {
    if n == 0 then [] else ReportRows(s, rows, n - 1, start, end) + [ReportRowOf(s, rows[n - 1], start, end)]
  }

  lemma {:induction false} ReportRowsIndex(s: Store, rows: seq<MemberRow>, n: nat, start: Date, end: Date, i: int)
    requires 0 <= i < n <= |rows|
    ensures ReportRows(s, rows, n, start, end)[i] == ReportRowOf(s, rows[i], start, end)
  {
    if i < n - 1 {
      ReportRowsIndex(s, rows, n - 1, start, end, i);
    }
  }

  method ProcessMembers(s: Store, rows: seq<MemberRow>, start: Date, end: Date)
    returns (r: seq<Formatted<MemberWithPersons>>)
    ensures r == ReportRows(s, rows, |rows|, start, end)
  {
    r := [];
    for i := 0 to |rows|
      invariant r == ReportRows(s, rows, i, start, end)
    {
      var row := ProcessMember(s, rows[i], start, end);
      r := r + [row];
    }
  }

  /** getMemberWithPersonsReport: both dates are required; then one row per joined member. */
  method GetMemberWithPersonsReport(s: Store, startDate: Option<Date>, endDate: Option<Date>)
    returns (r: Result<seq<Formatted<MemberWithPersons>>, ReportError>)
    ensures startDate.None? || endDate.None? <==> r == Err(DatesRequired)
    ensures r.Ok? ==>
      var rows := MembersQuery(s.members, s.persons);
      && |r.value| == |rows|
      && forall i :: 0 <= i < |rows| ==> r.value[i] == ReportRowOf(s, rows[i], startDate.value, endDate.value)
  {
    if startDate.None? || endDate.None? {
      return Err(DatesRequired);
    }
    var rows := MembersQuery(s.members, s.persons);
    var results := ProcessMembers(s, rows, startDate.value, endDate.value);
    forall i | 0 <= i < |rows|
      ensures results[i] == ReportRowOf(s, rows[i], startDate.value, endDate.value)
    {
      ReportRowsIndex(s, rows, |rows|, startDate.value, endDate.value, i);
    }
    r := Ok(results);
  }
}
