/** The discount engine (backend/utils/discountService.js): a member attending an
    activity gets the policy rate off the price when they brought at least the
    policy's number of guests to that same activity. Every value is read fresh
    from the store on each call. */
module DiscountService {
  import opened Ledger

  /** The `remise` (rate) and `nbpersonne` (guest threshold) of the policy row. */
  datatype DiscountConstants = DiscountConstants(remise: real, nbpersonne: int)

  datatype PriceInfo = PriceInfo(
    originalPrice: real,
    discountedPrice: real,
    discount: real,
    peopleBrought: nat,
    minimumRequired: int,
    hasDiscount: bool,
    isMember: bool)

  /** The first policy row, or rate 0 and threshold 0 when the table is empty. */
  function GetDiscountConstants(constants: seq<Constant>): (c: DiscountConstants)
    ensures |constants| == 0 ==> c == DiscountConstants(0.0, 0)
    ensures |constants| > 0 ==> c.remise == constants[0].remise && c.nbpersonne == constants[0].nbpersonne
  {
    if |constants| == 0 then DiscountConstants(0.0, 0)
    else DiscountConstants(constants[0].remise, constants[0].nbpersonne)
  }

  /** The row condition of the guest count: brought by this member, at this activity,
      with a guest in `id_person`. */
  predicate Brought(p: Presence, memberId: Option<int>, activityId: int) {
    SqlEq(p.idMember, memberId) && p.idActivity == activityId && p.idPerson.Some?
  }

  /** `COUNT(*)` of the presences satisfying Brought. */
  function CountPeopleBroughtByMember(ps: seq<Presence>, memberId: Option<int>, activityId: int): (n: nat)
    ensures n <= |ps|
    ensures n == 0 <==> forall p :: p in ps ==> !Brought(p, memberId, activityId)
  {
    if |ps| == 0 then 0
    else
      assert forall p :: p in ps ==> p == ps[0] || p in ps[1..];
      (if Brought(ps[0], memberId, activityId) then 1 else 0)
        + CountPeopleBroughtByMember(ps[1..], memberId, activityId)
  }

  /** `SELECT id FROM Members WHERE id_person = personId` returns a row. */
  predicate IsPersonMember(members: seq<Member>, personId: Option<int>) {
    exists m :: m in members && SqlEq(m.idPerson, personId)
  }

  function CalculateDiscountedPrice(s: Store, originalPrice: real, memberId: Option<int>,
                                    activityId: int, personId: Option<int>): (r: PriceInfo)
    ensures r.originalPrice == originalPrice
    ensures r.isMember == IsPersonMember(s.members, personId)
    ensures !r.isMember ==> r == PriceInfo(originalPrice, originalPrice, 0.0, 0, 0, false, false)
    ensures r.isMember ==>
      var c := GetDiscountConstants(s.constants);
      && r.discount == c.remise
      && r.minimumRequired == c.nbpersonne
      && r.peopleBrought == CountPeopleBroughtByMember(s.presences, memberId, activityId)
    ensures r.hasDiscount <==>
      && IsPersonMember(s.members, personId)
      && CountPeopleBroughtByMember(s.presences, memberId, activityId) >= GetDiscountConstants(s.constants).nbpersonne
      && GetDiscountConstants(s.constants).remise > 0.0
    ensures r.discountedPrice ==
      if r.hasDiscount then originalPrice - originalPrice * GetDiscountConstants(s.constants).remise
      else originalPrice
  {
    if !IsPersonMember(s.members, personId) then
      PriceInfo(originalPrice, originalPrice, 0.0, 0, 0, false, false)
    else
      var c := GetDiscountConstants(s.constants);
      var peopleBrought := CountPeopleBroughtByMember(s.presences, memberId, activityId);
      var hasDiscount := peopleBrought >= c.nbpersonne && c.remise > 0.0;
      var discountAmount := if hasDiscount then originalPrice * c.remise else 0.0;
      PriceInfo(originalPrice, originalPrice - discountAmount, c.remise, peopleBrought,
                c.nbpersonne, hasDiscount, true)
  }

  function CalculateActualPrice(s: Store, originalPrice: real, memberId: Option<int>,
                                activityId: int, personId: Option<int>): (r: real)
    ensures r == CalculateDiscountedPrice(s, originalPrice, memberId, activityId, personId).discountedPrice
  {
    CalculateDiscountedPrice(s, originalPrice, memberId, activityId, personId).discountedPrice
  }

  /** With a rate in [0, 1] and a non-negative price the charged price lies in [0, price]. */
  lemma DiscountedPriceBounded(s: Store, originalPrice: real, memberId: Option<int>,
                               activityId: int, personId: Option<int>)
    requires |s.constants| > 0 ==> 0.0 <= s.constants[0].remise <= 1.0
    requires originalPrice >= 0.0
    ensures 0.0 <= CalculateActualPrice(s, originalPrice, memberId, activityId, personId) <= originalPrice
  {
    var c := GetDiscountConstants(s.constants);
    assert 0.0 <= c.remise <= 1.0;
    assert 0.0 <= originalPrice * c.remise <= originalPrice * 1.0;
  }

  /** An empty policy table means no presence is ever discounted. */
  lemma NoPolicyNoDiscount(s: Store, originalPrice: real, memberId: Option<int>,
                           activityId: int, personId: Option<int>)
    requires |s.constants| == 0
    ensures !CalculateDiscountedPrice(s, originalPrice, memberId, activityId, personId).hasDiscount
    ensures CalculateActualPrice(s, originalPrice, memberId, activityId, personId) == originalPrice
  {
  }

  /** The guest count of the sequence extended by one row grows by one exactly when
      that row is a guest brought by this member to this activity. */
  lemma {:induction false} CountAppend(ps: seq<Presence>, p: Presence, memberId: Option<int>, activityId: int)
    ensures CountPeopleBroughtByMember(ps + [p], memberId, activityId)
         == CountPeopleBroughtByMember(ps, memberId, activityId) + (if Brought(p, memberId, activityId) then 1 else 0)
  {
    if |ps| > 0 {
      assert (ps + [p])[1..] == ps[1..] + [p];
      CountAppend(ps[1..], p, memberId, activityId);
    } else {
      assert ps + [p] == [p];
    }
  }

  /** The count is per activity: rows at other activities, own-attendance rows and
      rows of other members leave it unchanged. */
  lemma OtherRowsDoNotCount(ps: seq<Presence>, p: Presence, memberId: Option<int>, activityId: int)
    requires p.idActivity != activityId || p.idPerson.None? || !SqlEq(p.idMember, memberId)
    ensures CountPeopleBroughtByMember(ps + [p], memberId, activityId)
         == CountPeopleBroughtByMember(ps, memberId, activityId)
  {
    CountAppend(ps, p, memberId, activityId);
  }
}
