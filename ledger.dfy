/** The club ledger: the Postgres tables the handlers read and write, held as
    sequences of rows. A Store is a snapshot of every table; Db is the mutable
    database the state-changing handlers update in place. */
module Ledger {

  datatype Option<T> = None | Some(value: T) {
    /** `x || d` / `COALESCE(x, d)` on a nullable value. */
    function GetOr(default: T): T {
      if Some? then value else default
    }
  }

  datatype Result<T, E> = Ok(value: T) | Err(error: E)

  /** SQL `a = b` on nullable integer columns: NULL is equal to nothing. */
  predicate SqlEq(a: Option<int>, b: Option<int>) {
    a.Some? && b.Some? && a.value == b.value
  }

  /** SQL `COALESCE(a, b)`. */
  function Coalesce(a: Option<int>, b: Option<int>): (r: Option<int>)
    ensures a.Some? ==> r == a
    ensures a.None? ==> r == b
  {
    if a.Some? then a else b
  }

  /** Dates are day numbers written yyyymmdd, so integer order is date order. */
  type Date = int

  datatype Sp = Sp(id: int, region: string, description: string)
  datatype Person = Person(id: int, firstName: string, lastName: string, birthDate: Date, idSp: int)
  /** `Members(id, id_person, affiliation_date)`; `id_person` is nullable. */
  datatype Member = Member(id: int, idPerson: Option<int>, affiliationDate: Date)
  datatype Activity = Activity(id: int, date: Date, description: string, priority: int, region: string, price: real)
  /** `ActivityPresence(id, id_member, id_person, id_activity)`: a member's own attendance has
      `id_person` NULL; a guest row carries the guest in `id_person` and the bringing member. */
  datatype Presence = Presence(id: int, idMember: Option<int>, idPerson: Option<int>, idActivity: int)
  datatype Payment = Payment(id: int, date: Date, idActivity: int, idPresence: int, amount: real)
  /** The `Constant` policy row: discount rate, guest threshold and the activity price band. */
  datatype Constant = Constant(remise: real, nbpersonne: int, minimumPrice: real, maximumPrice: real)

  datatype Store = Store(
    sps: seq<Sp>,
    persons: seq<Person>,
    members: seq<Member>,
    activities: seq<Activity>,
    presences: seq<Presence>,
    payments: seq<Payment>,
    constants: seq<Constant>)

  /** The database the handlers write to: one field per table. */
  class Db {
    var sps: seq<Sp>
    var persons: seq<Person>
    var members: seq<Member>
    var activities: seq<Activity>
    var presences: seq<Presence>
    var payments: seq<Payment>
    var constants: seq<Constant>

    function Snapshot(): (s: Store)
      reads this
      ensures s.presences == presences && s.payments == payments && s.constants == constants
      ensures s.members == members && s.persons == persons && s.activities == activities && s.sps == sps
    {
      Store(sps, persons, members, activities, presences, payments, constants)
    }

    constructor (s: Store)
      ensures Snapshot() == s
    {
      sps := s.sps;
      persons := s.persons;
      members := s.members;
      activities := s.activities;
      presences := s.presences;
      payments := s.payments;
      constants := s.constants;
    }
  }

  // Lookups by primary key. A join on a key column matches the first row with that id;
  // with the unique ids a SERIAL key guarantees, that is the only such row.

  function FindActivity(acts: seq<Activity>, id: int): (r: Option<Activity>)
    ensures r.Some? ==> r.value in acts && r.value.id == id
    ensures r.None? <==> forall a :: a in acts ==> a.id != id
  {
    if |acts| == 0 then None
    else if acts[0].id == id then Some(acts[0])
    else FindActivity(acts[1..], id)
  }

  function FindPresence(ps: seq<Presence>, id: int): (r: Option<Presence>)
    ensures r.Some? ==> r.value in ps && r.value.id == id
    ensures r.None? <==> forall p :: p in ps ==> p.id != id
  {
    if |ps| == 0 then None
    else if ps[0].id == id then Some(ps[0])
    else FindPresence(ps[1..], id)
  }

  function FindPerson(persons: seq<Person>, id: int): (r: Option<Person>)
    ensures r.Some? ==> r.value in persons && r.value.id == id
    ensures r.None? <==> forall p :: p in persons ==> p.id != id
  {
    if |persons| == 0 then None
    else if persons[0].id == id then Some(persons[0])
    else FindPerson(persons[1..], id)
  }

  /** `JOIN Members m ON m.id = id`: NULL matches no member. */
  function FindMember(members: seq<Member>, id: Option<int>): (r: Option<Member>)
    ensures r.Some? ==> r.value in members && SqlEq(Some(r.value.id), id)
    ensures r.None? <==> forall m :: m in members ==> !SqlEq(Some(m.id), id)
  {
    if |members| == 0 then None
    else if SqlEq(Some(members[0].id), id) then Some(members[0])
    else FindMember(members[1..], id)
  }

  function MaxId(ids: seq<int>): (r: int)
    ensures r >= 0
    ensures forall i :: i in ids ==> i <= r
  {
    if |ids| == 0 then 0
    else
      var rest := MaxId(ids[1..]);
      assert forall i :: i in ids ==> i == ids[0] || i in ids[1..];
      if ids[0] > rest then ids[0] else rest
  }

  /** The id a SERIAL column hands out next: larger than every id in the table. */
  function NextId(ids: seq<int>): (r: int)
    ensures r >= 1
    ensures forall i :: i in ids ==> i < r
  {
    MaxId(ids) + 1
  }

  function PaymentIds(pays: seq<Payment>): (r: seq<int>)
    ensures |r| == |pays|
    ensures forall i :: 0 <= i < |pays| ==> r[i] == pays[i].id
  {
    seq(|pays|, i requires 0 <= i < |pays| => pays[i].id)
  }

  function PresenceIds(ps: seq<Presence>): (r: seq<int>)
    ensures |r| == |ps|
    ensures forall i :: 0 <= i < |ps| ==> r[i] == ps[i].id
  {
    seq(|ps|, i requires 0 <= i < |ps| => ps[i].id)
  }

  function ActivityIds(acts: seq<Activity>): (r: seq<int>)
    ensures |r| == |acts|
    ensures forall i :: 0 <= i < |acts| ==> r[i] == acts[i].id
  {
    seq(|acts|, i requires 0 <= i < |acts| => acts[i].id)
  }

  function PersonIds(persons: seq<Person>): (r: seq<int>)
    ensures |r| == |persons|
    ensures forall i :: 0 <= i < |persons| ==> r[i] == persons[i].id
  {
    seq(|persons|, i requires 0 <= i < |persons| => persons[i].id)
  }

  /** A set of values collected from a sequence is no larger than the sequence. */
  lemma {:induction false} DistinctAtMost<T>(xs: seq<T>)
    ensures |set x | x in xs| <= |xs|
  {
    if |xs| > 0 {
      DistinctAtMost(xs[1..]);
      assert (set x | x in xs) == {xs[0]} + (set x | x in xs[1..]);
    }
  }
}
