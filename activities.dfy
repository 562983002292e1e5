/** Activity creation (backend/controllers/ActivitiesController.js). */
module ActivitiesController {
  import opened Ledger

  /** The `minimum_price` / `maximum_price` band of the policy row. */
  datatype PriceConstraints = PriceConstraints(minimumPrice: real, maximumPrice: real)

  /** getPriceConstraints: the band of the first Constant row, or None when there is none. */
  function GetPriceConstraints(constants: seq<Constant>): (r: Option<PriceConstraints>)
    ensures r.None? <==> |constants| == 0
    ensures r.Some? ==> r.value == PriceConstraints(constants[0].minimumPrice, constants[0].maximumPrice)
  {
    if |constants| == 0 then None
    else Some(PriceConstraints(constants[0].minimumPrice, constants[0].maximumPrice))
  }

  /** The fields of the request body. */
  datatype ActivityRequest = ActivityRequest(date: Date, description: string, priority: int, region: string, price: real)

  datatype ActivityError =
    | DateNotInFuture
    | PriorityOutOfRange
    | ConstraintsNotFound
    | PriceOutOfRange(minimumPrice: real, maximumPrice: real)

  /** The validation chain: date, priority, constraints, price; the first failure wins. */
  function CheckActivity(constants: seq<Constant>, req: ActivityRequest, today: Date): (r: Option<ActivityError>)
    ensures req.date <= today ==> r == Some(DateNotInFuture)
    ensures req.date > today && (req.priority < 1 || req.priority > 10) ==> r == Some(PriorityOutOfRange)
    ensures r == Some(ConstraintsNotFound) <==>
      req.date > today && 1 <= req.priority <= 10 && |constants| == 0
    ensures r.Some? && r.value.PriceOutOfRange? <==>
      && req.date > today && 1 <= req.priority <= 10 && |constants| > 0
      && !(constants[0].minimumPrice <= req.price <= constants[0].maximumPrice)
    ensures r.Some? && r.value.PriceOutOfRange? ==>
      r.value == PriceOutOfRange(constants[0].minimumPrice, constants[0].maximumPrice)
    ensures r.None? <==>
      && req.date > today && 1 <= req.priority <= 10
      && GetPriceConstraints(constants).Some?
      && GetPriceConstraints(constants).value.minimumPrice <= req.price <= GetPriceConstraints(constants).value.maximumPrice
  {
    if req.date <= today then Some(DateNotInFuture)
    else if req.priority < 1 || req.priority > 10 then Some(PriorityOutOfRange)
    else match GetPriceConstraints(constants)
      case None => Some(ConstraintsNotFound)
      case Some(c) =>
        if req.price < c.minimumPrice || req.price > c.maximumPrice then Some(PriceOutOfRange(c.minimumPrice, c.maximumPrice))
        else None
  }

  function NewActivity(acts: seq<Activity>, req: ActivityRequest): (a: Activity)
    ensures a.id !in ActivityIds(acts)
  {
    Activity(NextId(ActivityIds(acts)), req.date, req.description, req.priority, req.region, req.price)
  }

  /** Every activity lies in the current band, has a priority in 1..10 and a date after `today`. */
  ghost predicate ActivitiesValid(s: Store, since: Date) {
    && GetPriceConstraints(s.constants).Some?
    && forall a :: a in s.activities ==>
         && 1 <= a.priority <= 10
         && a.date > since
         && GetPriceConstraints(s.constants).value.minimumPrice <= a.price <= GetPriceConstraints(s.constants).value.maximumPrice
  }

  /** The handler: validate, then one INSERT of the given fields under a fresh id. */
  method InsertActivity(db: Db, req: ActivityRequest, today: Date) returns (r: Result<Activity, ActivityError>)
    modifies db
    ensures var e := CheckActivity(old(db.constants), req, today);
      && (e.Some? ==> r == Err(e.value) && db.Snapshot() == old(db.Snapshot()))
      && (e.None? ==> r == Ok(NewActivity(old(db.activities), req))
                      && db.Snapshot() == old(db.Snapshot()).(activities := old(db.activities) + [r.value]))
    ensures forall since :: since <= today && ActivitiesValid(old(db.Snapshot()), since) ==> ActivitiesValid(db.Snapshot(), since)
  {
    if req.date <= today {
      return Err(DateNotInFuture);
    }
    if req.priority < 1 || req.priority > 10 {
      return Err(PriorityOutOfRange);
    }
    var constraints := GetPriceConstraints(db.constants);
    if constraints.None? {
      return Err(ConstraintsNotFound);
    }
    var c := constraints.value;
    if req.price < c.minimumPrice || req.price > c.maximumPrice {
      return Err(PriceOutOfRange(c.minimumPrice, c.maximumPrice));
    }
    var a := NewActivity(db.activities, req);
    db.activities := db.activities + [a];
    r := Ok(a);
  }

  /** An accepted request yields an activity inside the band, with a valid priority
      and a future date; a rejected one names the first rule it breaks. */
  lemma AcceptedActivityIsValid(s: Store, req: ActivityRequest, today: Date)
    requires CheckActivity(s.constants, req, today).None?
    ensures ActivitiesValid(s, today) ==> ActivitiesValid(s.(activities := s.activities + [NewActivity(s.activities, req)]), today)
    ensures var a := NewActivity(s.activities, req);
      && a.date > today && 1 <= a.priority <= 10
      && s.constants[0].minimumPrice <= a.price <= s.constants[0].maximumPrice
  {
  }
}
