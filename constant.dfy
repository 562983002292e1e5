/** The discount-policy singleton (backend/controllers/ConstantController.js). */
module ConstantController {
  import opened Ledger
  import opened DiscountService
  import opened ActivitiesController

  datatype ConstantError = MissingFields | ConstantNotFound

  /** getConstant: the first Constant row, or not-found when the table is empty. */
  function GetConstant(constants: seq<Constant>): (r: Result<Constant, ConstantError>)
    ensures |constants| == 0 <==> r == Err(ConstantNotFound)
    ensures r.Ok? ==> r.value == constants[0]
    ensures r.Err? ==> r.error == ConstantNotFound
  {
    if |constants| == 0 then Err(ConstantNotFound) else Ok(constants[0])
  }

  /** `UPDATE Constant SET remise = $1, nbpersonne = $2` has no WHERE: every row gets the
      new rate and threshold and keeps its price band. No range check is applied. */
  function SetPolicy(rows: seq<Constant>, remise: real, nbpersonne: int): (r: seq<Constant>)
    ensures |r| == |rows|
    ensures forall i :: 0 <= i < |r| ==>
      && r[i].remise == remise && r[i].nbpersonne == nbpersonne
      && r[i].minimumPrice == rows[i].minimumPrice && r[i].maximumPrice == rows[i].maximumPrice
  {
    seq(|rows|, i requires 0 <= i < |rows| => rows[i].(remise := remise, nbpersonne := nbpersonne))
  }

  /** updateConstant: `remise` or `nbpersonne` absent is rejected with nothing written;
      an empty table is not-found; otherwise every row is rewritten and the first is returned. */
  method UpdateConstant(db: Db, remise: Option<real>, nbpersonne: Option<int>) returns (r: Result<Constant, ConstantError>)
    modifies db
    ensures remise.None? || nbpersonne.None? ==> r == Err(MissingFields) && db.Snapshot() == old(db.Snapshot())
    ensures remise.Some? && nbpersonne.Some? && |old(db.constants)| == 0 ==>
      r == Err(ConstantNotFound) && db.Snapshot() == old(db.Snapshot())
    ensures remise.Some? && nbpersonne.Some? && |old(db.constants)| > 0 ==>
      && db.Snapshot() == old(db.Snapshot()).(constants := SetPolicy(old(db.constants), remise.value, nbpersonne.value))
      && r == Ok(db.constants[0])
  {
    if remise.None? || nbpersonne.None? {
      return Err(MissingFields);
    }
    var updated := SetPolicy(db.constants, remise.value, nbpersonne.value);
    db.constants := updated;
    if |updated| == 0 {
      return Err(ConstantNotFound);
    }
    r := Ok(updated[0]);
  }

  /** After an update the discount engine reads exactly the new rate and threshold,
      getConstant returns the row the update returned, and the price band that
      activity creation checks against is the one before the update. */
  lemma UpdateThenRead(rows: seq<Constant>, remise: real, nbpersonne: int)
    requires |rows| > 0
    ensures GetDiscountConstants(SetPolicy(rows, remise, nbpersonne)) == DiscountConstants(remise, nbpersonne)
    ensures GetConstant(SetPolicy(rows, remise, nbpersonne)).Ok?
    ensures GetPriceConstraints(SetPolicy(rows, remise, nbpersonne)) == GetPriceConstraints(rows)
  {
  }

  /** Updating the policy never invalidates the activities already created. */
  lemma UpdateKeepsActivitiesValid(s: Store, remise: real, nbpersonne: int, since: Date)
    requires ActivitiesValid(s, since)
    ensures ActivitiesValid(s.(constants := SetPolicy(s.constants, remise, nbpersonne)), since)
  {
    UpdateThenRead(s.constants, remise, nbpersonne);
  }
}
