/** Person and member creation (backend/controllers/PersonsController.js). */
module PersonsController {
  import opened Ledger
  import opened DiscountService

  datatype PersonError = SpNotFound | PersonNotFound

  predicate SpExists(sps: seq<Sp>, id: int) {
    exists sp :: sp in sps && sp.id == id
  }

  predicate PersonExists(persons: seq<Person>, id: int) {
    exists p :: p in persons && p.id == id
  }

  function NewPerson(persons: seq<Person>, firstName: string, lastName: string, birthDate: Date, idSp: int): (p: Person)
    ensures p.id !in PersonIds(persons)
  {
    Person(NextId(PersonIds(persons)), firstName, lastName, birthDate, idSp)
  }

  /** Every person's SP exists. */
  ghost predicate PersonsReferenceSps(s: Store) {
    forall p :: p in s.persons ==> SpExists(s.sps, p.idSp)
  }

  /** Every member id is the id of an existing person. */
  ghost predicate MembersReferencePersons(s: Store) {
    forall m :: m in s.members ==> PersonExists(s.persons, m.id)
  }

  /** insertPerson: an unknown SP is rejected with nothing written; otherwise one person
      with the given fields is appended under a fresh id. */
  method InsertPerson(db: Db, firstName: string, lastName: string, birthDate: Date, idSp: int)
    returns (r: Result<Person, PersonError>)
    modifies db
    ensures !SpExists(old(db.sps), idSp) ==> r == Err(SpNotFound) && db.Snapshot() == old(db.Snapshot())
    ensures SpExists(old(db.sps), idSp) ==>
      && r == Ok(NewPerson(old(db.persons), firstName, lastName, birthDate, idSp))
      && db.Snapshot() == old(db.Snapshot()).(persons := old(db.persons) + [r.value])
    ensures PersonsReferenceSps(old(db.Snapshot())) ==> PersonsReferenceSps(db.Snapshot())
    ensures MembersReferencePersons(old(db.Snapshot())) ==> MembersReferencePersons(db.Snapshot())
  {
    if !SpExists(db.sps, idSp) {
      return Err(SpNotFound);
    }
    var p := NewPerson(db.persons, firstName, lastName, birthDate, idSp);
    db.persons := db.persons + [p];
    r := Ok(p);
  }

  /** insertMember: an unknown person is rejected with nothing written; otherwise a
      Member whose id is the person id is appended, with `id_person` left NULL. An
      existing membership is not looked for. */
  method InsertMember(db: Db, personId: int, affiliationDate: Date) returns (r: Result<Member, PersonError>)
    modifies db
    ensures !PersonExists(old(db.persons), personId) ==> r == Err(PersonNotFound) && db.Snapshot() == old(db.Snapshot())
    ensures PersonExists(old(db.persons), personId) ==>
      && r == Ok(Member(personId, None, affiliationDate))
      && db.Snapshot() == old(db.Snapshot()).(members := old(db.members) + [r.value])
    ensures MembersReferencePersons(old(db.Snapshot())) ==> MembersReferencePersons(db.Snapshot())
  {
    if !PersonExists(db.persons, personId) {
      return Err(PersonNotFound);
    }
    var m := Member(personId, None, affiliationDate);
    db.members := db.members + [m];
    r := Ok(m);
  }

  /** The membership the discount engine looks up (by `id_person`) is not changed by a
      member this handler creates: such a person is still billed as a non-member. */
  lemma NewMemberNotRecognised(members: seq<Member>, personId: int, affiliationDate: Date, who: Option<int>)
    ensures IsPersonMember(members + [Member(personId, None, affiliationDate)], who) == IsPersonMember(members, who)
  {
    var ms := members + [Member(personId, None, affiliationDate)];
    if IsPersonMember(ms, who) {
      var m :| m in ms && SqlEq(m.idPerson, who);
      assert m in members;
    }
  }

  /** Hence a person who becomes a member only through insertMember gets no discount
      from that membership. */
  lemma NewMemberGetsNoDiscount(s: Store, personId: int, affiliationDate: Date,
                                originalPrice: real, memberId: Option<int>, activityId: int)
    requires !IsPersonMember(s.members, Some(personId))
    ensures var s' := s.(members := s.members + [Member(personId, None, affiliationDate)]);
      !CalculateDiscountedPrice(s', originalPrice, memberId, activityId, Some(personId)).hasDiscount
  {
    NewMemberNotRecognised(s.members, personId, affiliationDate, Some(personId));
  }
}
