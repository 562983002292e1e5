/** The per-activity account report (backend/controllers/ActivityStateController.js). */
module ActivityStateController {
  import opened Ledger
  import opened PriceCalculator
  import opened QueryHelpers

  datatype ActivityState = ActivityState(activityId: int, description: string, date: Date,
                                         memberCount: nat, nonMemberCount: nat)

  /** The formatted row for one activity: every presence of the activity priced at the
      activity's base price, less what was paid on those presences. */
  function ActivityStateOf(s: Store, c: ActivityCounts): (f: Formatted<ActivityState>)
    ensures f.fields == ActivityState(c.activityId, c.description, c.date, c.memberCount, c.nonMemberCount)
    ensures f.totalPrice == TotalExpected(s, GetActivityPresences(s.presences, c.activityId), c.price)
    ensures f.totalPaid == c.totalPaid
    ensures f.remainingBalance == f.totalPrice - f.totalPaid
  {
    var total := TotalExpected(s, GetActivityPresences(s.presences, c.activityId), c.price);
    FormatFinancialResult(FinancialResult(
      ActivityState(c.activityId, c.description, c.date, c.memberCount, c.nonMemberCount),
      Some(total), Some(c.totalPaid), Some(total - c.totalPaid)))
  }

  method ProcessActivity(s: Store, c: ActivityCounts) returns (f: Formatted<ActivityState>)
    ensures f == ActivityStateOf(s, c)
  {
    var presences := GetActivityPresences(s.presences, c.activityId);
    var totalExpectedPrice := CalculateTotalExpectedPrice(s, presences, c.price);
    var remainingBalance := totalExpectedPrice - c.totalPaid;
    var result := FinancialResult(ActivityState(c.activityId, c.description, c.date, c.memberCount, c.nonMemberCount),
                                  Some(totalExpectedPrice), Some(c.totalPaid), Some(remainingBalance));
    f := FormatFinancialResult(result);
  }

  method ProcessRows(s: Store, rows: seq<ActivityCounts>) returns (r: seq<Formatted<ActivityState>>)
    ensures |r| == |rows|
    ensures forall i :: 0 <= i < |r| ==> r[i] == ActivityStateOf(s, rows[i])
  {
    r := [];
    for i := 0 to |rows|
      invariant |r| == i
      invariant forall k :: 0 <= k < i ==> r[k] == ActivityStateOf(s, rows[k])
    {
      var row := ProcessActivity(s, rows[i]);
      r := r + [row];
    }
  }

  /** getActivityStates: one formatted row per row of the basic-counts query, in its order. */
  method GetActivityStates(s: Store) returns (r: seq<Formatted<ActivityState>>)
    ensures |r| == |GetActivitiesWithBasicCounts(s)|
    ensures forall i :: 0 <= i < |r| ==> r[i] == ActivityStateOf(s, GetActivitiesWithBasicCounts(s)[i])
  {
    r := ProcessRows(s, GetActivitiesWithBasicCounts(s));
  }

  /** Row i reports activity i: the expected total of its presences at its price, and
      that total less the payments made on those presences. */
  lemma ActivityStateRow(s: Store, i: int)
    requires 0 <= i < |s.activities|
    ensures var a := s.activities[i];
      var f := ActivityStateOf(s, GetActivitiesWithBasicCounts(s)[i]);
      && f.fields.activityId == a.id
      && f.totalPrice == TotalExpected(s, GetActivityPresences(s.presences, a.id), a.price)
      && f.remainingBalance == f.totalPrice - ActivityPaid(s.presences, s.payments, a.id)
  {
  }

  /** An activity nobody attended reports 0 owed, 0 paid, 0 remaining and no members. */
  lemma UnattendedActivityState(s: Store, i: int)
    requires 0 <= i < |s.activities|
    requires forall p :: p in s.presences ==> p.idActivity != s.activities[i].id
    ensures var f := ActivityStateOf(s, GetActivitiesWithBasicCounts(s)[i]);
      f.totalPrice == 0.0 && f.totalPaid == 0.0 && f.remainingBalance == 0.0 && f.fields.memberCount == 0
  {
    CountsBounded(s, i);
  }
}
