/** Attendance registration (backend/controllers/ActivityPresenceController.js). */
module ActivityPresenceController {
  import opened Ledger
  import opened DiscountService

  /** getPersons: the persons no Member row references through `id_person`
      (`LEFT JOIN Members ... WHERE m.id IS NULL`), in table order. */
  function GetPersons(s: Store): (r: seq<Person>)
    ensures forall p :: p in r <==> p in s.persons && !IsPersonMember(s.members, Some(p.id))
    ensures |r| <= |s.persons|
  {
    NonMembers(s.persons, s.members)
  }

  function NonMembers(persons: seq<Person>, members: seq<Member>): (r: seq<Person>)
    ensures forall p :: p in r <==> p in persons && !IsPersonMember(members, Some(p.id))
    ensures |r| <= |persons|
  {
    if |persons| == 0 then []
    else
      assert forall p :: p in persons ==> p == persons[0] || p in persons[1..];
      (if IsPersonMember(members, Some(persons[0].id)) then [] else [persons[0]])
        + NonMembers(persons[1..], members)
  }

  /** A field of the JSON request body: absent (`undefined`), `null`, `""` or a number. */
  datatype Field = Absent | Null | Empty | Given(id: int)

  /** `x === '' ? null : x` */
  function EmptyToNull(f: Field): (r: Field)
    ensures r != Empty
    ensures f != Empty ==> r == f
  {
    if f == Empty then Null else f
  }

  /** The value sent to Postgres: `undefined` and `null` both become NULL. */
  function ToColumn(f: Field): Option<int> {
    if f.Given? then Some(f.id) else None
  }

  /** `!id_activity`: absent, null, empty and 0 are all falsy. */
  predicate Falsy(f: Field) {
    !f.Given? || f.id == 0
  }

  datatype PresenceError =
    | ActivityIdRequired
    | AttendeeRequired
    | PersonAlreadyAttended
    | MemberAlreadyAttended

  /** The row the handler would insert, before the id is assigned. */
  datatype PresenceRequest = PresenceRequest(idMember: Option<int>, idPerson: Option<int>, idActivity: int)

  predicate PersonAttended(ps: seq<Presence>, idPerson: Option<int>, activityId: int) {
    exists q :: q in ps && SqlEq(q.idPerson, idPerson) && q.idActivity == activityId
  }

  /** Matches every row with this `id_member`, guest rows included. */
  predicate MemberAttended(ps: seq<Presence>, idMember: Option<int>, activityId: int) {
    exists q :: q in ps && SqlEq(q.idMember, idMember) && q.idActivity == activityId
  }

  /** The validation chain exactly as written: an attendee is "missing" only when it
      is `null` or `""` after normalisation (`=== null`), so an absent field passes.
      Rejections come in the order activity, attendee, person duplicate, member duplicate. */
  function CheckPresenceAsWritten(ps: seq<Presence>, idMember: Field, idPerson: Field, idActivity: Field)
    : (r: Result<PresenceRequest, PresenceError>)
    ensures r == Err(ActivityIdRequired) <==> Falsy(idActivity)
    ensures r == Err(AttendeeRequired) <==>
      !Falsy(idActivity) && EmptyToNull(idMember) == Null && EmptyToNull(idPerson) == Null
    ensures r == Err(PersonAlreadyAttended) <==>
      !Falsy(idActivity) && !(EmptyToNull(idMember) == Null && EmptyToNull(idPerson) == Null)
      && PersonAttended(ps, ToColumn(idPerson), idActivity.id)
    ensures r == Err(MemberAlreadyAttended) <==>
      !Falsy(idActivity) && !(EmptyToNull(idMember) == Null && EmptyToNull(idPerson) == Null)
      && !PersonAttended(ps, ToColumn(idPerson), idActivity.id)
      && MemberAttended(ps, ToColumn(idMember), idActivity.id)
    ensures r.Ok? <==>
      !Falsy(idActivity) && !(EmptyToNull(idMember) == Null && EmptyToNull(idPerson) == Null)
      && !PersonAttended(ps, ToColumn(idPerson), idActivity.id)
      && !MemberAttended(ps, ToColumn(idMember), idActivity.id)
    ensures r.Ok? ==> r.value == PresenceRequest(ToColumn(idMember), ToColumn(idPerson), idActivity.id)
  {
    var m := EmptyToNull(idMember);
    var p := EmptyToNull(idPerson);
    if Falsy(idActivity) then Err(ActivityIdRequired)
    else if m == Null && p == Null then Err(AttendeeRequired)
    else if p != Null && PersonAttended(ps, ToColumn(p), idActivity.id) then Err(PersonAlreadyAttended)
    else if m != Null && MemberAttended(ps, ToColumn(m), idActivity.id) then Err(MemberAlreadyAttended)
    else Ok(PresenceRequest(ToColumn(m), ToColumn(p), idActivity.id))
  }

  /** A request that omits both attendee fields gets past the check and would be
      stored as a presence with neither a member nor a person. */
  lemma OmittedAttendeesAccepted(ps: seq<Presence>)
    ensures CheckPresenceAsWritten(ps, Absent, Absent, Given(1)) == Ok(PresenceRequest(None, None, 1))
  {
  }

  /** The validation chain with the evident intent: an attendee field that is absent,
      `null` or `""` counts as missing. Rejections come in the same order. */
  function CheckPresence(ps: seq<Presence>, idMember: Field, idPerson: Field, idActivity: Field)
    : (r: Result<PresenceRequest, PresenceError>)
    ensures r == Err(ActivityIdRequired) <==> Falsy(idActivity)
    ensures r == Err(AttendeeRequired) <==>
      !Falsy(idActivity) && ToColumn(idMember).None? && ToColumn(idPerson).None?
    ensures r == Err(PersonAlreadyAttended) <==>
      !Falsy(idActivity) && (ToColumn(idMember).Some? || ToColumn(idPerson).Some?)
      && PersonAttended(ps, ToColumn(idPerson), idActivity.id)
    ensures r == Err(MemberAlreadyAttended) <==>
      !Falsy(idActivity) && (ToColumn(idMember).Some? || ToColumn(idPerson).Some?)
      && !PersonAttended(ps, ToColumn(idPerson), idActivity.id)
      && MemberAttended(ps, ToColumn(idMember), idActivity.id)
    ensures r.Ok? <==>
      !Falsy(idActivity) && (ToColumn(idMember).Some? || ToColumn(idPerson).Some?)
      && !PersonAttended(ps, ToColumn(idPerson), idActivity.id)
      && !MemberAttended(ps, ToColumn(idMember), idActivity.id)
    ensures r.Ok? ==> r.value == PresenceRequest(ToColumn(idMember), ToColumn(idPerson), idActivity.id)
  {
    var m := EmptyToNull(idMember);
    var p := EmptyToNull(idPerson);
    if Falsy(idActivity) then Err(ActivityIdRequired)
    else if ToColumn(m).None? && ToColumn(p).None? then Err(AttendeeRequired)
    else if p != Null && PersonAttended(ps, ToColumn(p), idActivity.id) then Err(PersonAlreadyAttended)
    else if m != Null && MemberAttended(ps, ToColumn(m), idActivity.id) then Err(MemberAlreadyAttended)
    else Ok(PresenceRequest(ToColumn(m), ToColumn(p), idActivity.id))
  }

  /** The corrected check refuses the request the written one lets through. */
  lemma OmittedAttendeesRejected(ps: seq<Presence>)
    ensures CheckPresence(ps, Absent, Absent, Given(1)) == Err(AttendeeRequired)
  {
  }

  /** The two checks disagree exactly on a request with an activity whose attendee
      fields are both left without a value and at least one of them is absent; there the
      written check accepts a row with no attendee. */
  lemma AsWrittenDiffersOnlyOnAbsent(ps: seq<Presence>, idMember: Field, idPerson: Field, idActivity: Field)
    ensures CheckPresenceAsWritten(ps, idMember, idPerson, idActivity) != CheckPresence(ps, idMember, idPerson, idActivity)
      <==> !Falsy(idActivity) && ToColumn(idMember).None? && ToColumn(idPerson).None?
           && (idMember == Absent || idPerson == Absent)
    ensures CheckPresenceAsWritten(ps, idMember, idPerson, idActivity) != CheckPresence(ps, idMember, idPerson, idActivity)
      ==> CheckPresenceAsWritten(ps, idMember, idPerson, idActivity) == Ok(PresenceRequest(None, None, idActivity.id))
  {
  }

  /** No two rows put the same person, or the same member, at one activity. */
  predicate UniqueAttendance(ps: seq<Presence>) {
    forall i, j :: 0 <= i < j < |ps| && ps[i].idActivity == ps[j].idActivity ==>
      !SqlEq(ps[i].idPerson, ps[j].idPerson) && !SqlEq(ps[i].idMember, ps[j].idMember)
  }

  function RowOf(ps: seq<Presence>, req: PresenceRequest): (p: Presence)
    ensures p.id !in PresenceIds(ps)
  {
    Presence(NextId(PresenceIds(ps)), req.idMember, req.idPerson, req.idActivity)
  }

  /** Appending a row whose person and member are not yet at its activity keeps
      (person, activity) and (member, activity) unique. */
  lemma AppendKeepsUnique(ps: seq<Presence>, req: PresenceRequest)
    requires UniqueAttendance(ps)
    requires !PersonAttended(ps, req.idPerson, req.idActivity)
    requires !MemberAttended(ps, req.idMember, req.idActivity)
    ensures UniqueAttendance(ps + [RowOf(ps, req)])
  {
    var ps' := ps + [RowOf(ps, req)];
    forall i, j | 0 <= i < j < |ps'| && ps'[i].idActivity == ps'[j].idActivity
      ensures !SqlEq(ps'[i].idPerson, ps'[j].idPerson) && !SqlEq(ps'[i].idMember, ps'[j].idMember)
    {
      if j == |ps| {
        assert ps'[i] in ps;
      } else {
        assert ps'[i] == ps[i] && ps'[j] == ps[j];
      }
    }
  }

  /** A registration the handler accepts keeps attendance unique, the row without any
      attendee included (NULL equals nothing). */
  lemma RegistrationKeepsUnique(ps: seq<Presence>, idMember: Field, idPerson: Field, idActivity: Field)
    requires UniqueAttendance(ps)
    requires CheckPresenceAsWritten(ps, idMember, idPerson, idActivity).Ok?
    ensures UniqueAttendance(ps + [RowOf(ps, CheckPresenceAsWritten(ps, idMember, idPerson, idActivity).value)])
  {
    AppendKeepsUnique(ps, CheckPresenceAsWritten(ps, idMember, idPerson, idActivity).value);
  }

  /** The same holds for the corrected check. */
  lemma CorrectedRegistrationKeepsUnique(ps: seq<Presence>, idMember: Field, idPerson: Field, idActivity: Field)
    requires UniqueAttendance(ps)
    requires CheckPresence(ps, idMember, idPerson, idActivity).Ok?
    ensures UniqueAttendance(ps + [RowOf(ps, CheckPresence(ps, idMember, idPerson, idActivity).value)])
  {
    AppendKeepsUnique(ps, CheckPresence(ps, idMember, idPerson, idActivity).value);
  }

  /** In a table kept unique by this handler, a member's own presence has no guests
      counted for it: the member-duplicate check also matches guest rows. */
  lemma OwnPresenceBringsNobody(ps: seq<Presence>, i: int)
    requires UniqueAttendance(ps)
    requires 0 <= i < |ps| && ps[i].idPerson.None? && ps[i].idMember.Some?
    ensures CountPeopleBroughtByMember(ps, ps[i].idMember, ps[i].idActivity) == 0
  {
    forall q | q in ps
      ensures !Brought(q, ps[i].idMember, ps[i].idActivity)
    {
      var j :| 0 <= j < |ps| && ps[j] == q;
      assert i < j ==> ps[i].idActivity == ps[j].idActivity ==> !SqlEq(ps[i].idMember, ps[j].idMember);
      assert j < i ==> ps[j].idActivity == ps[i].idActivity ==> !SqlEq(ps[j].idMember, ps[i].idMember);
    }
  }

  /** Hence, on such a table, a member's own attendance is discounted only under a
      guest threshold of 0 or less. */
  lemma OwnPresenceDiscountNeedsZeroThreshold(s: Store, i: int, originalPrice: real, personId: Option<int>)
    requires UniqueAttendance(s.presences)
    requires 0 <= i < |s.presences| && s.presences[i].idPerson.None? && s.presences[i].idMember.Some?
    requires CalculateDiscountedPrice(s, originalPrice, s.presences[i].idMember, s.presences[i].idActivity, personId).hasDiscount
    ensures GetDiscountConstants(s.constants).nbpersonne <= 0
  {
    OwnPresenceBringsNobody(s.presences, i);
  }

  /** The handler as written: normalise, validate, then one INSERT. A request that
      omits both attendee fields is stored as a row without attendee. */
  method InsertActivityPresence(db: Db, idMember: Field, idPerson: Field, idActivity: Field)
    returns (r: Result<Presence, PresenceError>)
    modifies db
    ensures var c := CheckPresenceAsWritten(old(db.presences), idMember, idPerson, idActivity);
      && (c.Err? ==> r == Err(c.error) && db.Snapshot() == old(db.Snapshot()))
      && (c.Ok? ==> r == Ok(RowOf(old(db.presences), c.value))
                    && db.Snapshot() == old(db.Snapshot()).(presences := old(db.presences) + [r.value]))
    ensures UniqueAttendance(old(db.presences)) ==> UniqueAttendance(db.presences)
  {
    var m := idMember;
    var p := idPerson;
    m := if m == Empty then Null else m;
    p := if p == Empty then Null else p;
    if !idActivity.Given? || idActivity.id == 0 {
      return Err(ActivityIdRequired);
    }
    if m == Null && p == Null {
      return Err(AttendeeRequired);
    }
    if p != Null && PersonAttended(db.presences, ToColumn(p), idActivity.id) {
      return Err(PersonAlreadyAttended);
    }
    if m != Null && MemberAttended(db.presences, ToColumn(m), idActivity.id) {
      return Err(MemberAlreadyAttended);
    }
    var row := Presence(NextId(PresenceIds(db.presences)), ToColumn(m), ToColumn(p), idActivity.id);
    if UniqueAttendance(db.presences) {
      RegistrationKeepsUnique(db.presences, idMember, idPerson, idActivity);
    }
    db.presences := db.presences + [row];
    r := Ok(row);
  }
}
