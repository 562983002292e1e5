/** The shared read queries (backend/utils/queryHelpers.js), as functions over the tables. */
module QueryHelpers {
  import opened Ledger
  import opened PriceCalculator

  /** What the billing engine needs about one presence. `personId` is
      `COALESCE(id_person, id_member)`: for a member's own row, the member id. */
  datatype PresenceDetails = PresenceDetails(price: real, idMember: Option<int>, activityId: int, personId: Option<int>)

  /** The presence joined with its activity; None when the id is unknown (or its activity is missing). */
  function GetPresenceDetails(s: Store, presenceId: int): (r: Option<PresenceDetails>)
    ensures (forall p :: p in s.presences ==> p.id != presenceId) ==> r.None?
    ensures r.Some? <==>
      FindPresence(s.presences, presenceId).Some?
      && FindActivity(s.activities, FindPresence(s.presences, presenceId).value.idActivity).Some?
    ensures r.Some? ==>
      exists p, a :: p in s.presences && a in s.activities
        && p.id == presenceId && a.id == p.idActivity
        && r.value == PresenceDetails(a.price, p.idMember, a.id, Coalesce(p.idPerson, p.idMember))
  {
    match FindPresence(s.presences, presenceId)
    case None => None
    case Some(p) =>
      match FindActivity(s.activities, p.idActivity)
      case None => None
      case Some(a) => Some(PresenceDetails(a.price, p.idMember, a.id, Coalesce(p.idPerson, p.idMember)))
  }

  /** `COALESCE(SUM(amount), 0)` of the payments targeting the presence. */
  function GetTotalPayments(pays: seq<Payment>, presenceId: int): (total: real)
    ensures (forall pay :: pay in pays ==> pay.idPresence != presenceId) ==> total == 0.0
  {
    if |pays| == 0 then 0.0
    else
      assert forall pay :: pay in pays[1..] ==> pay in pays;
      (if pays[0].idPresence == presenceId then pays[0].amount else 0.0) + GetTotalPayments(pays[1..], presenceId)
  }

  /** A new payment adds its amount to its own presence's total and to no other. */
  lemma {:induction false} TotalPaymentsAppend(pays: seq<Payment>, pay: Payment, presenceId: int)
    ensures GetTotalPayments(pays + [pay], presenceId)
         == GetTotalPayments(pays, presenceId) + (if pay.idPresence == presenceId then pay.amount else 0.0)
  {
    if |pays| == 0 {
      assert pays + [pay] == [pay];
    } else {
      assert (pays + [pay])[1..] == pays[1..] + [pay];
      TotalPaymentsAppend(pays[1..], pay, presenceId);
    }
  }

  function PresenceRefOf(p: Presence): PresenceRef {
    PresenceRef(p.idMember, p.idActivity, Coalesce(p.idPerson, p.idMember))
  }

  /** The presences of one activity with the coalesced person id, in table order. */
  function GetActivityPresences(ps: seq<Presence>, activityId: int): (r: seq<PresenceRef>)
    ensures |r| <= |ps|
    ensures forall x :: x in r ==> exists p :: p in ps && p.idActivity == activityId && x == PresenceRefOf(p)
    ensures forall p :: p in ps && p.idActivity == activityId ==> PresenceRefOf(p) in r
    ensures (forall p :: p in ps ==> p.idActivity != activityId) ==> r == []
  {
    if |ps| == 0 then []
    else
      assert forall p :: p in ps ==> p == ps[0] || p in ps[1..];
      (if ps[0].idActivity == activityId then [PresenceRefOf(ps[0])] else [])
        + GetActivityPresences(ps[1..], activityId)
  }

  /** `id_member` of the own-attendance rows (`id_person` NULL) at the activity. */
  function OwnMemberIds(ps: seq<Presence>, activityId: int): (r: seq<int>)
    ensures |r| <= |ps|
    ensures forall m :: m in r <==> exists p :: p in ps && p.idActivity == activityId && p.idPerson.None? && p.idMember == Some(m)
    ensures (forall p :: p in ps ==> p.idActivity != activityId) ==> r == []
  {
    if |ps| == 0 then []
    else
      assert forall p :: p in ps ==> p == ps[0] || p in ps[1..];
      var p := ps[0];
      (if p.idActivity == activityId && p.idPerson.None? && p.idMember.Some? then [p.idMember.value] else [])
        + OwnMemberIds(ps[1..], activityId)
  }

  /** `id_person` of the guest rows at the activity. */
  function GuestPersonIds(ps: seq<Presence>, activityId: int): (r: seq<int>)
    ensures |r| <= |ps|
    ensures forall g :: g in r <==> exists p :: p in ps && p.idActivity == activityId && p.idPerson == Some(g)
    ensures (forall p :: p in ps ==> p.idActivity != activityId) ==> r == []
  {
    if |ps| == 0 then []
    else
      assert forall p :: p in ps ==> p == ps[0] || p in ps[1..];
      var p := ps[0];
      (if p.idActivity == activityId && p.idPerson.Some? then [p.idPerson.value] else [])
        + GuestPersonIds(ps[1..], activityId)
  }

  /** Payments summed over the presences of the activity (presences LEFT JOIN payments). */
  function ActivityPaid(ps: seq<Presence>, pays: seq<Payment>, activityId: int): (total: real)
    ensures (forall p :: p in ps ==> p.idActivity != activityId) ==> total == 0.0
  {
    if |ps| == 0 then 0.0
    else
      assert forall p :: p in ps[1..] ==> p in ps;
      (if ps[0].idActivity == activityId then GetTotalPayments(pays, ps[0].id) else 0.0)
        + ActivityPaid(ps[1..], pays, activityId)
  }

  datatype ActivityCounts = ActivityCounts(
    activityId: int,
    description: string,
    date: Date,
    price: real,
    memberCount: nat,
    nonMemberCount: nat,
    totalPaid: real)

  function CountsFor(s: Store, a: Activity): ActivityCounts {
    ActivityCounts(a.id, a.description, a.date, a.price,
                   |set m | m in OwnMemberIds(s.presences, a.id)|,
                   |set g | g in GuestPersonIds(s.presences, a.id)|,
                   ActivityPaid(s.presences, s.payments, a.id))
  }

  /** One row per activity: distinct members attending on their own account, distinct
      guests, and the payments made on its presences; an activity without presences
      gets 0 everywhere. The `ORDER BY a.date DESC` is not modelled: rows keep table order. */
  function GetActivitiesWithBasicCounts(s: Store): (r: seq<ActivityCounts>)
    ensures |r| == |s.activities|
    ensures forall i :: 0 <= i < |r| ==>
      && r[i].activityId == s.activities[i].id
      && r[i].price == s.activities[i].price
      && r[i].date == s.activities[i].date
      && r[i].memberCount == |set m | m in OwnMemberIds(s.presences, s.activities[i].id)|
      && r[i].nonMemberCount == |set g | g in GuestPersonIds(s.presences, s.activities[i].id)|
      && r[i].totalPaid == ActivityPaid(s.presences, s.payments, s.activities[i].id)
  {
    seq(|s.activities|, i requires 0 <= i < |s.activities| => CountsFor(s, s.activities[i]))
  }

  /** The distinct counts never exceed the number of rows they are drawn from, and an
      activity nobody attended reports zero members, zero guests and nothing paid. */
  lemma CountsBounded(s: Store, i: int)
    requires 0 <= i < |s.activities|
    ensures var r := GetActivitiesWithBasicCounts(s)[i];
      && r.memberCount <= |OwnMemberIds(s.presences, s.activities[i].id)|
      && r.nonMemberCount <= |GuestPersonIds(s.presences, s.activities[i].id)|
      && ((forall p :: p in s.presences ==> p.idActivity != s.activities[i].id) ==>
            r.memberCount == 0 && r.nonMemberCount == 0 && r.totalPaid == 0.0)
  {
    var id := s.activities[i].id;
    DistinctAtMost(OwnMemberIds(s.presences, id));
    DistinctAtMost(GuestPersonIds(s.presences, id));
    if forall p :: p in s.presences ==> p.idActivity != id {
      assert OwnMemberIds(s.presences, id) == [];
      assert GuestPersonIds(s.presences, id) == [];
    }
  }
}
