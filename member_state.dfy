/** The per-member account report (backend/controllers/MemberStateController.js). */
module MemberStateController {
  import opened Ledger
  import opened DiscountService
  import opened PriceCalculator

  /** The `startDate` used when none (or an empty one) is given: 2025-04-01. */
  const DefaultStartDate: Date := 20250401

  function StartDateOrDefault(startDate: Option<Date>): (d: Date)
    ensures startDate.None? ==> d == DefaultStartDate
    ensures startDate.Some? ==> d == startDate.value
  {
    startDate.GetOr(DefaultStartDate)
  }

  /** A missing `endDate` is today's date. */
  function EndDateOrDefault(endDate: Option<Date>, today: Date): (d: Date)
    ensures endDate.None? ==> d == today
    ensures endDate.Some? ==> d == endDate.value
  {
    endDate.GetOr(today)
  }

  /** One row of `Members m JOIN Persons p ON m.id_person = p.id`. */
  datatype MemberRow = MemberRow(memberId: int, firstName: string, lastName: string, personId: int)

  predicate Joined(m: Member, p: Person) {
    SqlEq(m.idPerson, Some(p.id))
  }

  function RowOf(m: Member, p: Person): MemberRow {
    MemberRow(m.id, p.firstName, p.lastName, p.id)
  }

  function PersonsOf(m: Member, persons: seq<Person>): (r: seq<MemberRow>)
    ensures forall x :: x in r <==> exists p :: p in persons && Joined(m, p) && x == RowOf(m, p)
  {
    if |persons| == 0 then []
    else
      assert forall p :: p in persons ==> p == persons[0] || p in persons[1..];
      (if Joined(m, persons[0]) then [RowOf(m, persons[0])] else []) + PersonsOf(m, persons[1..])
  }

  /** The inner join, members in table order; a member whose `id_person` is NULL or names
      no person does not appear. The `ORDER BY p.last_name, p.first_name` is not modelled. */
  function MembersQuery(members: seq<Member>, persons: seq<Person>): (r: seq<MemberRow>)
    ensures forall x :: x in r <==>
      exists m, p :: m in members && p in persons && Joined(m, p) && x == RowOf(m, p)
  {
    if |members| == 0 then []
    else
      assert forall m :: m in members ==> m == members[0] || m in members[1..];
      PersonsOf(members[0], persons) + MembersQuery(members[1..], persons)
  }

  /** Every listed member is one the discount engine recognises: the report prices
      its rows with the member's own person id, which the join ties to a Member row. */
  lemma ListedMembersAreMembers(s: Store, x: MemberRow)
    requires x in MembersQuery(s.members, s.persons)
    ensures IsPersonMember(s.members, Some(x.personId))
  {
    var m, p :| m in s.members && p in s.persons && Joined(m, p) && x == RowOf(m, p);
    assert SqlEq(m.idPerson, Some(x.personId));
  }

  /** A presence row as the report queries return it, with its activity's base price. */
  datatype MemberPresence = MemberPresence(idMember: Option<int>, idActivity: int, idPerson: Option<int>, activityPrice: real)

  /** Brought by (or the own attendance of) `memberId`, own rows when `guests` is false and
      guest rows when it is true, at an activity dated inside [start, end]. */
  predicate Selected(acts: seq<Activity>, p: Presence, memberId: int, start: Date, end: Date, guests: bool) {
    && SqlEq(p.idMember, Some(memberId))
    && p.idPerson.Some? == guests
    && FindActivity(acts, p.idActivity).Some?
    && start <= FindActivity(acts, p.idActivity).value.date <= end
  }

  function PresenceRowOf(acts: seq<Activity>, p: Presence): MemberPresence
    requires FindActivity(acts, p.idActivity).Some?
  {
    MemberPresence(p.idMember, p.idActivity, p.idPerson, FindActivity(acts, p.idActivity).value.price)
  }

  function SelectPresences(acts: seq<Activity>, ps: seq<Presence>, memberId: int, start: Date, end: Date, guests: bool)
    : (r: seq<MemberPresence>)
    ensures |r| <= |ps|
  {
    if |ps| == 0 then []
    else
      assert forall p :: p in ps ==> p == ps[0] || p in ps[1..];
      (if Selected(acts, ps[0], memberId, start, end, guests) then [PresenceRowOf(acts, ps[0])] else [])
        + SelectPresences(acts, ps[1..], memberId, start, end, guests)
  }

  /** The selected rows are exactly the Selected presences, each with its activity's price. */
  lemma {:induction false} SelectPresencesExactly(acts: seq<Activity>, ps: seq<Presence>, memberId: int, start: Date, end: Date, guests: bool)
    ensures forall x :: x in SelectPresences(acts, ps, memberId, start, end, guests) <==>
      exists p :: p in ps && Selected(acts, p, memberId, start, end, guests) && x == PresenceRowOf(acts, p)
    ensures forall x :: x in SelectPresences(acts, ps, memberId, start, end, guests) ==>
      x.idMember == Some(memberId) && x.idPerson.Some? == guests
  {
    if |ps| > 0 {
      SelectPresencesExactly(acts, ps[1..], memberId, start, end, guests);
      assert forall p :: p in ps ==> p == ps[0] || p in ps[1..];
    }
  }

  /** getMemberPresences when `guests` is false; the guest-row query of the
      member-with-persons report when it is true. */
  function GetMemberPresences(s: Store, memberId: int, start: Date, end: Date, guests: bool): (r: seq<MemberPresence>)
  {
    SelectPresences(s.activities, s.presences, memberId, start, end, guests)
  }

  /** getMemberPresences returns exactly the member's own (or guest) presences at an
      activity inside the period, and nothing of another member. */
  lemma GetMemberPresencesExactly(s: Store, memberId: int, start: Date, end: Date, guests: bool)
    ensures forall x :: x in GetMemberPresences(s, memberId, start, end, guests) <==>
      exists p :: p in s.presences && Selected(s.activities, p, memberId, start, end, guests) && x == PresenceRowOf(s.activities, p)
    ensures forall x :: x in GetMemberPresences(s, memberId, start, end, guests) ==>
      x.idMember == Some(memberId) && x.idPerson.Some? == guests
  {
    SelectPresencesExactly(s.activities, s.presences, memberId, start, end, guests);
  }

  /** The payment's presence (`JOIN ActivityPresence ON id_presenceactivity = id`) is Selected. */
  predicate Targets(s: Store, pay: Payment, memberId: int, start: Date, end: Date, guests: bool) {
    && FindPresence(s.presences, pay.idPresence).Some?
    && Selected(s.activities, FindPresence(s.presences, pay.idPresence).value, memberId, start, end, guests)
  }

  /** `COALESCE(SUM(amount), 0)` over the payments that target a Selected presence. */
  function PaidOn(s: Store, pays: seq<Payment>, memberId: int, start: Date, end: Date, guests: bool): (total: real)
    ensures (forall pay :: pay in pays ==> !Targets(s, pay, memberId, start, end, guests)) ==> total == 0.0
  {
    if |pays| == 0 then 0.0
    else
      assert forall pay :: pay in pays[1..] ==> pay in pays;
      (if Targets(s, pays[0], memberId, start, end, guests) then pays[0].amount else 0.0)
        + PaidOn(s, pays[1..], memberId, start, end, guests)
  }

  function GetMemberPayments(s: Store, memberId: int, start: Date, end: Date, guests: bool): real {
    PaidOn(s, s.payments, memberId, start, end, guests)
  }

  /** A new payment raises the figure by its amount exactly when it targets a Selected presence. */
  lemma {:induction false} PaidOnAppend(s: Store, pays: seq<Payment>, pay: Payment, memberId: int, start: Date, end: Date, guests: bool)
    ensures PaidOn(s, pays + [pay], memberId, start, end, guests)
         == PaidOn(s, pays, memberId, start, end, guests)
            + (if Targets(s, pay, memberId, start, end, guests) then pay.amount else 0.0)
  {
    if |pays| == 0 {
      assert pays + [pay] == [pay];
    } else {
      assert (pays + [pay])[1..] == pays[1..] + [pay];
      PaidOnAppend(s, pays[1..], pay, memberId, start, end, guests);
    }
  }

  /** Sum of the discounted price of each presence, priced at its own activity's price
      and checked for membership with `personId`. */
  function MemberAmountDue(s: Store, presences: seq<MemberPresence>, personId: Option<int>): (total: real)
    ensures |presences| == 0 ==> total == 0.0
  {
    if |presences| == 0 then 0.0
    else
      CalculateActualPrice(s, presences[0].activityPrice, presences[0].idMember, presences[0].idActivity, personId)
        + MemberAmountDue(s, presences[1..], personId)
  }

  lemma {:induction false} MemberAmountDueAppend(s: Store, presences: seq<MemberPresence>, x: MemberPresence, personId: Option<int>)
    ensures MemberAmountDue(s, presences + [x], personId)
         == MemberAmountDue(s, presences, personId)
            + CalculateActualPrice(s, x.activityPrice, x.idMember, x.idActivity, personId)
  {
    if |presences| == 0 {
      assert presences + [x] == [x];
    } else {
      assert (presences + [x])[1..] == presences[1..] + [x];
      MemberAmountDueAppend(s, presences[1..], x, personId);
    }
  }

  /** calculateMemberAmountDue: one discount evaluation per presence, accumulated. */
  method CalculateMemberAmountDue(s: Store, presences: seq<MemberPresence>, personId: Option<int>) returns (total: real)
    ensures total == MemberAmountDue(s, presences, personId)
  {
    total := 0.0;
    for i := 0 to |presences|
      invariant total == MemberAmountDue(s, presences[..i], personId)
    {
      var actualPrice := CalculateActualPrice(s, presences[i].activityPrice, presences[i].idMember,
                                              presences[i].idActivity, personId);
      MemberAmountDueAppend(s, presences[..i], presences[i], personId);
      assert presences[..i + 1] == presences[..i] + [presences[i]];
      total := total + actualPrice;
    }
    assert presences[..|presences|] == presences;
  }

  datatype MemberState = MemberState(memberId: int, firstName: string, lastName: string,
                                     activityCount: nat, totalAmountDue: real)

  /** The formatted row for one member. The row carries no `total_price`, so formatting
      reports 0 for it. */
  function MemberStateOf(s: Store, x: MemberRow, start: Date, end: Date): (f: Formatted<MemberState>)
    ensures var due := MemberAmountDue(s, GetMemberPresences(s, x.memberId, start, end, false), Some(x.personId));
      var paid := GetMemberPayments(s, x.memberId, start, end, false);
      && f.fields.memberId == x.memberId
      && f.fields.activityCount == |GetMemberPresences(s, x.memberId, start, end, false)|
      && f.fields.totalAmountDue == due
      && f.totalPaid == paid
      && f.remainingBalance == due - paid
      && f.totalPrice == 0.0
  {
    var presences := GetMemberPresences(s, x.memberId, start, end, false);
    var due := MemberAmountDue(s, presences, Some(x.personId));
    var paid := GetMemberPayments(s, x.memberId, start, end, false);
    FormatFinancialResult(FinancialResult(MemberState(x.memberId, x.firstName, x.lastName, |presences|, due),
                                          None, Some(paid), Some(due - paid)))
  }

  /** The body of the report loop for one member. */
  method ProcessMember(s: Store, x: MemberRow, start: Date, end: Date) returns (f: Formatted<MemberState>)
    ensures f == MemberStateOf(s, x, start, end)
  {
    var presences := GetMemberPresences(s, x.memberId, start, end, false);
    var totalPaid := GetMemberPayments(s, x.memberId, start, end, false);
    var totalAmountDue := CalculateMemberAmountDue(s, presences, Some(x.personId));
    var remainingBalance := totalAmountDue - totalPaid;
    var result := FinancialResult(MemberState(x.memberId, x.firstName, x.lastName, |presences|, totalAmountDue),
                                  None, Some(totalPaid), Some(remainingBalance));
    f := FormatFinancialResult(result);
  }

  /** getMemberStates: defaults the period, then one formatted row per joined member. */
  method GetMemberStates(s: Store, startDate: Option<Date>, endDate: Option<Date>, today: Date)
    returns (r: seq<Formatted<MemberState>>)
    ensures var rows := MembersQuery(s.members, s.persons);
      && |r| == |rows|
      && forall i :: 0 <= i < |r| ==>
           r[i] == MemberStateOf(s, rows[i], StartDateOrDefault(startDate), EndDateOrDefault(endDate, today))
  {
    var start := DefaultStartDate;
    if startDate.Some? { start := startDate.value; }
    var end := today;
    if endDate.Some? { end := endDate.value; }
    assert start == StartDateOrDefault(startDate) && end == EndDateOrDefault(endDate, today);
    var rows := MembersQuery(s.members, s.persons);
    r := [];
    for i := 0 to |rows|
      invariant |r| == i
      invariant forall k :: 0 <= k < i ==> r[k] == MemberStateOf(s, rows[k], start, end)
    {
      var row := ProcessMember(s, rows[i], start, end);
      r := r + [row];
    }
  }
}
