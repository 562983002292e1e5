/** Balances and payment authorisation (backend/controllers/ActivityPaymentController.js). */
module ActivityPaymentController {
  import opened Ledger
  import opened DiscountService
  import opened QueryHelpers

  // ---------------------------------------------------------------------------
  // getAllPresences: one row per (attendee, activity), the presence with the largest id.

  datatype PresenceListing = PresenceListing(
    presenceId: int,
    firstName: string,
    lastName: string,
    activityDescription: string,
    activityPrice: real,
    activityDate: Date,
    idMember: Option<int>,
    activityId: int,
    personId: int,
    isMember: bool)

  /** The `DISTINCT ON` person: `COALESCE(id_person, id_member)`. */
  function ListedPersonId(p: Presence): Option<int> {
    Coalesce(p.idPerson, p.idMember)
  }

  /** The presence survives the joins with Persons and Activities. */
  predicate Listed(s: Store, p: Presence) {
    && ListedPersonId(p).Some?
    && FindPerson(s.persons, ListedPersonId(p).value).Some?
    && FindActivity(s.activities, p.idActivity).Some?
  }

  predicate SameKey(p: Presence, q: Presence) {
    ListedPersonId(p) == ListedPersonId(q) && p.idActivity == q.idActivity
  }

  /** Row j comes before row i in `ORDER BY key, ap.id DESC` within i's group
      (equal ids fall back to table order). */
  predicate Beats(s: Store, j: int, i: int)
    requires 0 <= i < |s.presences| && 0 <= j < |s.presences|
  {
    && Listed(s, s.presences[j])
    && SameKey(s.presences[j], s.presences[i])
    && (s.presences[j].id > s.presences[i].id || (s.presences[j].id == s.presences[i].id && j < i))
  }

  /** `DISTINCT ON` keeps the first row of each group. */
  predicate Kept(s: Store, i: int)
    requires 0 <= i < |s.presences|
  {
    Listed(s, s.presences[i]) && forall j :: 0 <= j < |s.presences| ==> !Beats(s, j, i)
  }

  function ListingOf(s: Store, p: Presence): (x: PresenceListing)
    requires Listed(s, p)
    ensures x.presenceId == p.id && x.personId == ListedPersonId(p).value && x.activityId == p.idActivity
  {
    var person := FindPerson(s.persons, ListedPersonId(p).value).value;
    var a := FindActivity(s.activities, p.idActivity).value;
    PresenceListing(p.id, person.firstName, person.lastName, a.description, a.price, a.date,
                    p.idMember, a.id, person.id, IsPersonMember(s.members, Some(person.id)))
  }

  function KeptFrom(s: Store, k: nat): (r: seq<PresenceListing>)
    requires k <= |s.presences|
    ensures forall x :: x in r ==> exists i :: k <= i < |s.presences| && Kept(s, i) && x == ListingOf(s, s.presences[i])
    ensures forall i :: k <= i < |s.presences| && Kept(s, i) ==> ListingOf(s, s.presences[i]) in r
    decreases |s.presences| - k
  {
    if k == |s.presences| then []
    else (if Kept(s, k) then [ListingOf(s, s.presences[k])] else []) + KeptFrom(s, k + 1)
  }

  /** The listing, in table order (the source's ORDER BY is not modelled). */
  function GetAllPresences(s: Store): (r: seq<PresenceListing>)
    ensures forall x :: x in r ==> exists i :: 0 <= i < |s.presences| && Kept(s, i) && x == ListingOf(s, s.presences[i])
  {
    KeptFrom(s, 0)
  }

  lemma KeptKeysDiffer(s: Store, i: int, j: int)
    requires 0 <= i < |s.presences| && 0 <= j < |s.presences| && i != j
    requires Kept(s, i) && Kept(s, j)
    ensures !SameKey(s.presences[i], s.presences[j])
  {
    assert SameKey(s.presences[i], s.presences[j]) ==> Beats(s, i, j) || Beats(s, j, i);
  }

  function Key(x: PresenceListing): (int, int) {
    (x.personId, x.activityId)
  }

  predicate DistinctKeys(r: seq<PresenceListing>) {
    forall a, b :: 0 <= a < b < |r| ==> Key(r[a]) != Key(r[b])
  }

  lemma DistinctCons(x: PresenceListing, tail: seq<PresenceListing>)
    requires DistinctKeys(tail)
    requires forall y :: y in tail ==> Key(x) != Key(y)
    ensures DistinctKeys([x] + tail)
  {
    var r := [x] + tail;
    forall a, b | 0 <= a < b < |r|
      ensures Key(r[a]) != Key(r[b])
    {
      assert r[b] == tail[b - 1] && r[b] in tail;
      if a > 0 {
        assert r[a] == tail[a - 1];
      }
    }
  }

  lemma {:induction false} KeptFromDistinct(s: Store, k: nat)
    requires k <= |s.presences|
    ensures DistinctKeys(KeptFrom(s, k))
    decreases |s.presences| - k
  {
    if k < |s.presences| {
      KeptFromDistinct(s, k + 1);
      var tail := KeptFrom(s, k + 1);
      if Kept(s, k) {
        var x := ListingOf(s, s.presences[k]);
        forall y | y in tail
          ensures Key(x) != Key(y)
        {
          var i :| k + 1 <= i < |s.presences| && Kept(s, i) && y == ListingOf(s, s.presences[i]);
          KeptKeysDiffer(s, k, i);
        }
        assert KeptFrom(s, k) == [x] + tail;
        DistinctCons(x, tail);
      } else {
        assert KeptFrom(s, k) == tail;
      }
    }
  }

  /** The listing has at most one row per (person, activity). */
  lemma AllPresencesDistinct(s: Store)
    ensures DistinctKeys(GetAllPresences(s))
  {
    KeptFromDistinct(s, 0);
  }

  ghost function BeatersOf(s: Store, i: int): set<int>
    requires 0 <= i < |s.presences|
  {
    set j | 0 <= j < |s.presences| && Beats(s, j, i)
  }

  lemma {:induction false} KeptWinner(s: Store, i: int)
    requires 0 <= i < |s.presences| && Listed(s, s.presences[i])
    ensures
      exists j :: 0 <= j < |s.presences| && Kept(s, j) &&
        SameKey(s.presences[j], s.presences[i]) && s.presences[j].id >= s.presences[i].id
    decreases |BeatersOf(s, i)|
  {
    if !Kept(s, i) {
      var j :| 0 <= j < |s.presences| && Beats(s, j, i);
      assert BeatersOf(s, j) < BeatersOf(s, i) by {
        forall k | k in BeatersOf(s, j)
          ensures k in BeatersOf(s, i)
        {
          assert Beats(s, k, j);
        }
        assert j in BeatersOf(s, i) && j !in BeatersOf(s, j);
      }
      var more := BeatersOf(s, i) - BeatersOf(s, j);
      assert j in more;
      assert BeatersOf(s, i) == BeatersOf(s, j) + more;
      assert |BeatersOf(s, i)| == |BeatersOf(s, j)| + |more|;
      KeptWinner(s, j);
    }
  }

  /** Every presence that joins with a person and an activity is represented by a
      listed row for the same (person, activity), whose presence id is at least its own. */
  lemma EveryPresenceListed(s: Store, i: int)
    requires 0 <= i < |s.presences| && Listed(s, s.presences[i])
    ensures
      exists x :: x in GetAllPresences(s) &&
        x.personId == ListedPersonId(s.presences[i]).value &&
        x.activityId == s.presences[i].idActivity &&
        x.presenceId >= s.presences[i].id
  {
    KeptWinner(s, i);
    var j :| 0 <= j < |s.presences| && Kept(s, j)
      && SameKey(s.presences[j], s.presences[i]) && s.presences[j].id >= s.presences[i].id;
    assert ListingOf(s, s.presences[j]) in GetAllPresences(s);
  }

  // ---------------------------------------------------------------------------
  // getPresenceBalance

  datatype DiscountInfo = DiscountInfo(
    hasDiscount: bool,
    discountPercentage: real,
    peopleBrought: nat,
    minimumRequired: int,
    discountAmount: real,
    isMember: bool)

  datatype Balance = Balance(
    remainingBalance: real,
    totalPrice: real,
    originalPrice: real,
    totalPaid: real,
    discountInfo: DiscountInfo)

  datatype BalanceError = PresenceIdRequired | BalancePresenceNotFound

  function PriceInfoOf(s: Store, d: PresenceDetails): PriceInfo {
    CalculateDiscountedPrice(s, d.price, d.idMember, d.activityId, d.personId)
  }

  /** The balance of one presence. `presence` is the query parameter, None when absent or empty. */
  function GetPresenceBalance(s: Store, presence: Option<int>): (r: Result<Balance, BalanceError>)
    ensures presence.None? ==> r == Err(PresenceIdRequired)
    ensures presence.Some? && GetPresenceDetails(s, presence.value).None? ==> r == Err(BalancePresenceNotFound)
    ensures presence.Some? && GetPresenceDetails(s, presence.value).Some? ==> r.Ok?
    ensures r.Ok? ==>
      var b := r.value;
      var d := GetPresenceDetails(s, presence.value).value;
      && b.originalPrice == d.price
      && b.totalPrice == CalculateActualPrice(s, d.price, d.idMember, d.activityId, d.personId)
      && b.totalPaid == GetTotalPayments(s.payments, presence.value)
      && b.remainingBalance == b.totalPrice - b.totalPaid
      && b.discountInfo.discountAmount == b.originalPrice - b.totalPrice
      && b.discountInfo.hasDiscount == PriceInfoOf(s, d).hasDiscount
      && b.discountInfo.discountPercentage == PriceInfoOf(s, d).discount
      && b.discountInfo.peopleBrought == PriceInfoOf(s, d).peopleBrought
      && b.discountInfo.minimumRequired == PriceInfoOf(s, d).minimumRequired
      && b.discountInfo.isMember == IsPersonMember(s.members, d.personId)
  {
    if presence.None? then Err(PresenceIdRequired)
    else
      match GetPresenceDetails(s, presence.value)
      case None => Err(BalancePresenceNotFound)
      case Some(d) =>
        var info := PriceInfoOf(s, d);
        var totalPaid := GetTotalPayments(s.payments, presence.value);
        Ok(Balance(info.discountedPrice - totalPaid, info.discountedPrice, d.price, totalPaid,
                   DiscountInfo(info.hasDiscount, info.discount, info.peopleBrought, info.minimumRequired,
                                d.price - info.discountedPrice, info.isMember)))
  }

  /** Asking again without an intervening write gives the same answer, and a payment
      on one presence does not move the balance of another. */
  lemma BalanceIgnoresOtherPayments(s: Store, presence: int, pay: Payment)
    requires pay.idPresence != presence
    ensures GetPresenceBalance(s.(payments := s.payments + [pay]), Some(presence)) == GetPresenceBalance(s, Some(presence))
  {
    var s' := s.(payments := s.payments + [pay]);
    PaymentsFrame(s, s'.payments, presence);
    TotalPaymentsAppend(s.payments, pay, presence);
  }

  /** The price of a presence does not depend on the payments table. */
  lemma PaymentsFrame(s: Store, pays: seq<Payment>, presenceId: int)
    ensures GetPresenceDetails(s.(payments := pays), presenceId) == GetPresenceDetails(s, presenceId)
    ensures GetPresenceDetails(s, presenceId).Some? ==>
      PriceInfoOf(s.(payments := pays), GetPresenceDetails(s, presenceId).value)
        == PriceInfoOf(s, GetPresenceDetails(s, presenceId).value)
  {
  }

  // ---------------------------------------------------------------------------
  // insertActivityPayment

  datatype PaymentError =
    | InvalidPaymentData
    | PresenceNotFound
    | ExceedsBalance(remainingBalance: real, discountApplied: bool)

  datatype AppliedDiscount = AppliedDiscount(
    originalPrice: real,
    discountedPrice: real,
    discountPercentage: real,
    peopleBrought: nat)

  datatype PaymentReceipt = PaymentReceipt(
    payment: Payment,
    discountApplied: bool,
    discountInfo: Option<AppliedDiscount>)

  /** `!id || !amount || amount <= 0` rejects the request (0 is falsy in the body). */
  predicate ValidPaymentRequest(presenceId: Option<int>, amount: Option<real>) {
    presenceId.Some? && presenceId.value != 0 && amount.Some? && amount.value > 0.0
  }

  /** The authorisation decision, taken on the state before the payment; on accept it
      carries the row to append (dated `today`, charged to the presence's activity). */
  function Authorize(s: Store, presenceId: Option<int>, amount: Option<real>, today: Date): (r: Result<PaymentReceipt, PaymentError>)
    ensures !ValidPaymentRequest(presenceId, amount) ==> r == Err(InvalidPaymentData)
    ensures ValidPaymentRequest(presenceId, amount) && GetPresenceDetails(s, presenceId.value).None? ==>
      r == Err(PresenceNotFound)
    ensures ValidPaymentRequest(presenceId, amount) && GetPresenceDetails(s, presenceId.value).Some? ==>
      var b := GetPresenceBalance(s, presenceId).value;
      && (r.Err? <==> amount.value > b.remainingBalance)
      && (r.Err? ==> r.error == ExceedsBalance(b.remainingBalance, b.discountInfo.hasDiscount))
    ensures r.Ok? ==>
      var d := GetPresenceDetails(s, presenceId.value).value;
      var info := PriceInfoOf(s, d);
      && r.value.payment == Payment(NextId(PaymentIds(s.payments)), today, d.activityId, presenceId.value, amount.value)
      && r.value.discountApplied == info.hasDiscount
      && r.value.discountInfo ==
           (if info.hasDiscount
            then Some(AppliedDiscount(d.price, info.discountedPrice, info.discount, info.peopleBrought))
            else None)
  {
    if !ValidPaymentRequest(presenceId, amount) then Err(InvalidPaymentData)
    else
      match GetPresenceDetails(s, presenceId.value)
      case None => Err(PresenceNotFound)
      case Some(d) =>
        var info := PriceInfoOf(s, d);
        var totalPaid := GetTotalPayments(s.payments, presenceId.value);
        var remainingAmount := info.discountedPrice - totalPaid;
        if amount.value > remainingAmount then Err(ExceedsBalance(remainingAmount, info.hasDiscount))
        else
          var payment := Payment(NextId(PaymentIds(s.payments)), today, d.activityId, presenceId.value, amount.value);
          Ok(PaymentReceipt(payment, info.hasDiscount,
                            if info.hasDiscount
                            then Some(AppliedDiscount(d.price, info.discountedPrice, info.discount, info.peopleBrought))
                            else None))
  }

  /** The ledger after an authorisation: the accepted payment appended, otherwise unchanged. */
  function ApplyPayment(s: Store, r: Result<PaymentReceipt, PaymentError>): Store {
    if r.Ok? then s.(payments := s.payments + [r.value.payment]) else s
  }

  /** No presence's payments exceed its discounted price. */
  predicate WithinCeiling(s: Store, presenceId: int) {
    GetPresenceDetails(s, presenceId).Some? ==>
      GetTotalPayments(s.payments, presenceId) <= PriceInfoOf(s, GetPresenceDetails(s, presenceId).value).discountedPrice
  }

  ghost predicate AllWithinCeiling(s: Store) {
    forall presenceId :: WithinCeiling(s, presenceId)
  }

  /** Sequential use keeps every presence within its ceiling: the accepted amount is at
      most what remained, and every other presence's total is untouched. */
  lemma PaymentKeepsCeiling(s: Store, presenceId: Option<int>, amount: Option<real>, today: Date)
    requires AllWithinCeiling(s)
    ensures AllWithinCeiling(ApplyPayment(s, Authorize(s, presenceId, amount, today)))
  {
    var r := Authorize(s, presenceId, amount, today);
    if r.Ok? {
      var s' := ApplyPayment(s, r);
      forall q
        ensures WithinCeiling(s', q)
      {
        PaymentsFrame(s, s'.payments, q);
        TotalPaymentsAppend(s.payments, r.value.payment, q);
        assert WithinCeiling(s, q);
      }
    }
  }

  /** Paying exactly what remains leaves nothing to pay, and any further positive
      payment is refused with remaining balance 0. */
  lemma PayInFull(s: Store, presenceId: int, today: Date, later: Date, amount: real)
    requires presenceId != 0 && GetPresenceDetails(s, presenceId).Some?
    requires GetPresenceBalance(s, Some(presenceId)).value.remainingBalance > 0.0
    requires amount > 0.0
    ensures var remaining := GetPresenceBalance(s, Some(presenceId)).value.remainingBalance;
      var r := Authorize(s, Some(presenceId), Some(remaining), today);
      var s' := ApplyPayment(s, r);
      && r.Ok?
      && GetPresenceBalance(s', Some(presenceId)).value.remainingBalance == 0.0
      && Authorize(s', Some(presenceId), Some(amount), later).Err?
      && Authorize(s', Some(presenceId), Some(amount), later).error.remainingBalance == 0.0
  {
    var remaining := GetPresenceBalance(s, Some(presenceId)).value.remainingBalance;
    var r := Authorize(s, Some(presenceId), Some(remaining), today);
    var s' := ApplyPayment(s, r);
    PaymentsFrame(s, s'.payments, presenceId);
    TotalPaymentsAppend(s.payments, r.value.payment, presenceId);
  }

  /** The handler: validation chain, then one INSERT into the payments table. */
  method InsertActivityPayment(db: Db, presenceId: Option<int>, amount: Option<real>, today: Date)
    returns (r: Result<PaymentReceipt, PaymentError>)
    modifies db
    ensures r == Authorize(old(db.Snapshot()), presenceId, amount, today)
    ensures db.Snapshot() == ApplyPayment(old(db.Snapshot()), r)
    ensures AllWithinCeiling(old(db.Snapshot())) ==> AllWithinCeiling(db.Snapshot())
  {
    var s := db.Snapshot();
    if presenceId.None? || presenceId.value == 0 || amount.None? || amount.value <= 0.0 {
      return Err(InvalidPaymentData);
    }
    var details := GetPresenceDetails(s, presenceId.value);
    if details.None? {
      return Err(PresenceNotFound);
    }
    var d := details.value;
    var priceInfo := CalculateDiscountedPrice(s, d.price, d.idMember, d.activityId, d.personId);
    var totalPaid := GetTotalPayments(s.payments, presenceId.value);
    var remainingAmount := priceInfo.discountedPrice - totalPaid;
    if amount.value > remainingAmount {
      return Err(ExceedsBalance(remainingAmount, priceInfo.hasDiscount));
    }
    var payment := Payment(NextId(PaymentIds(db.payments)), today, d.activityId, presenceId.value, amount.value);
    db.payments := db.payments + [payment];
    r := Ok(PaymentReceipt(payment, priceInfo.hasDiscount,
                           if priceInfo.hasDiscount
                           then Some(AppliedDiscount(d.price, priceInfo.discountedPrice, priceInfo.discount, priceInfo.peopleBrought))
                           else None));
    assert r == Authorize(s, presenceId, amount, today);
    assert db.Snapshot() == ApplyPayment(s, r);
    if AllWithinCeiling(s) {
      PaymentKeepsCeiling(s, presenceId, amount, today);
    }
  }
}
