/** The per-(SP, activity) account report (backend/controllers/SPActivityController.js). */
module SPActivityController {
  import opened Ledger
  import opened PriceCalculator

  /** `LEFT JOIN Members m ON ap.id_member = m.id LEFT JOIN Persons p ON (ap.id_person = p.id
      OR m.id_person = p.id)`: a presence is linked to its guest and to the bringing
      member's own person, so a guest row is linked to two persons. */
  predicate Linked(s: Store, ap: Presence, p: Person) {
    || SqlEq(ap.idPerson, Some(p.id))
    || (FindMember(s.members, ap.idMember).Some? && SqlEq(FindMember(s.members, ap.idMember).value.idPerson, Some(p.id)))
  }

  /** The presence is at the activity and one of its linked persons belongs to the SP. */
  predicate LinkedIn(s: Store, ap: Presence, p: Person, spId: int, activityId: int) {
    ap.idActivity == activityId && p.idSp == spId && Linked(s, ap, p)
  }

  /** `person_count`: the distinct persons of the SP linked to a presence at the activity. */
  function PersonCount(s: Store, spId: int, activityId: int): nat {
    |set ap, p | ap in s.presences && p in s.persons && LinkedIn(s, ap, p, spId, activityId) :: p.id|
  }

  /** How many joined rows a presence produces for the SP. */
  function LinkCount(s: Store, ap: Presence, persons: seq<Person>, spId: int, activityId: int): (n: nat)
    ensures n == 0 <==> forall p :: p in persons ==> !LinkedIn(s, ap, p, spId, activityId)
  {
    if |persons| == 0 then 0
    else
      assert forall p :: p in persons ==> p == persons[0] || p in persons[1..];
      (if LinkedIn(s, ap, persons[0], spId, activityId) then 1 else 0) + LinkCount(s, ap, persons[1..], spId, activityId)
  }

  /** A guest row whose guest and bringing member's person both belong to the SP
      produces two joined rows, so it is listed, priced and paid twice for the SP. */
  lemma {:induction false} TwoLinkedPersonsTwoRows(s: Store, ap: Presence, persons: seq<Person>, spId: int, activityId: int, i: int, j: int)
    requires 0 <= i < j < |persons|
    requires LinkedIn(s, ap, persons[i], spId, activityId) && LinkedIn(s, ap, persons[j], spId, activityId)
    ensures LinkCount(s, ap, persons, spId, activityId) >= 2
  {
    if i == 0 {
      assert persons[j] == persons[1..][j - 1];
      assert LinkCount(s, ap, persons[1..], spId, activityId) != 0;
    } else {
      assert persons[i] == persons[1..][i - 1] && persons[j] == persons[1..][j - 1];
      TwoLinkedPersonsTwoRows(s, ap, persons[1..], spId, activityId, i - 1, j - 1);
    }
  }

  /** The payment's presence produces at least one joined row for the SP. */
  predicate Attributed(s: Store, pay: Payment, spId: int, activityId: int) {
    && FindPresence(s.presences, pay.idPresence).Some?
    && LinkCount(s, FindPresence(s.presences, pay.idPresence).value, s.persons, spId, activityId) > 0
  }

  /** `total_paid`: `SUM(amount)` over the joined rows, so a payment counts once per linked
      person of the SP (twice when a guest and the member who brought them share the SP). */
  function SpPaid(s: Store, pays: seq<Payment>, spId: int, activityId: int): (total: real)
    ensures (forall pay :: pay in pays ==> !Attributed(s, pay, spId, activityId)) ==> total == 0.0
  {
    if |pays| == 0 then 0.0
    else
      assert forall pay :: pay in pays[1..] ==> pay in pays;
      var app := FindPresence(s.presences, pays[0].idPresence);
      var rows := if app.Some? then LinkCount(s, app.value, s.persons, spId, activityId) else 0;
      assert !Attributed(s, pays[0], spId, activityId) ==> rows == 0;
      pays[0].amount * rows as real + SpPaid(s, pays[1..], spId, activityId)
  }

  /** The row getSPActivityPresences returns for a presence: the person billed is
      `COALESCE(ap.id_person, m.id_person)`. */
  function SpPresenceRefOf(s: Store, ap: Presence): PresenceRef {
    var m := FindMember(s.members, ap.idMember);
    PresenceRef(ap.idMember, ap.idActivity, Coalesce(ap.idPerson, if m.Some? then m.value.idPerson else None))
  }

  function RefsFor(s: Store, ap: Presence, persons: seq<Person>, spId: int, activityId: int): (r: seq<PresenceRef>)
    ensures |r| == LinkCount(s, ap, persons, spId, activityId)
    ensures forall x :: x in r ==> x == SpPresenceRefOf(s, ap)
  {
    if |persons| == 0 then []
    else
      (if LinkedIn(s, ap, persons[0], spId, activityId) then [SpPresenceRefOf(s, ap)] else [])
        + RefsFor(s, ap, persons[1..], spId, activityId)
  }

  /** The number of joined rows the presences produce for the SP. */
  function LinkTotal(s: Store, ps: seq<Presence>, spId: int, activityId: int): nat {
    if |ps| == 0 then 0
    else LinkCount(s, ps[0], s.persons, spId, activityId) + LinkTotal(s, ps[1..], spId, activityId)
  }

  function SelectSpPresences(s: Store, ps: seq<Presence>, spId: int, activityId: int): (r: seq<PresenceRef>)
    ensures |r| == LinkTotal(s, ps, spId, activityId)
    ensures forall x :: x in r ==> exists ap, p :: ap in ps && p in s.persons && LinkedIn(s, ap, p, spId, activityId) && x == SpPresenceRefOf(s, ap)
    ensures (forall ap, p :: ap in ps && p in s.persons ==> !LinkedIn(s, ap, p, spId, activityId)) ==> r == []
  {
    if |ps| == 0 then []
    else
      assert forall ap :: ap in ps[1..] ==> ap in ps;
      var here := RefsFor(s, ps[0], s.persons, spId, activityId);
      assert forall x :: x in here ==> exists p :: p in s.persons && LinkedIn(s, ps[0], p, spId, activityId) by {
        forall x | x in here
          ensures exists p :: p in s.persons && LinkedIn(s, ps[0], p, spId, activityId)
        {
          assert LinkCount(s, ps[0], s.persons, spId, activityId) != 0;
        }
      }
      here + SelectSpPresences(s, ps[1..], spId, activityId)
  }

  /** Every presence linked to a person of the SP yields its row. */
  lemma {:induction false} SelectSpPresencesComplete(s: Store, ps: seq<Presence>, spId: int, activityId: int)
    ensures forall ap, p :: ap in ps && p in s.persons && LinkedIn(s, ap, p, spId, activityId) ==>
      SpPresenceRefOf(s, ap) in SelectSpPresences(s, ps, spId, activityId)
  {
    if |ps| > 0 {
      SelectSpPresencesComplete(s, ps[1..], spId, activityId);
      var here := RefsFor(s, ps[0], s.persons, spId, activityId);
      var r := SelectSpPresences(s, ps, spId, activityId);
      assert r == here + SelectSpPresences(s, ps[1..], spId, activityId);
      forall ap, p | ap in ps && p in s.persons && LinkedIn(s, ap, p, spId, activityId)
        ensures SpPresenceRefOf(s, ap) in r
      {
        if ap == ps[0] {
          assert here[0] in r;
        } else {
          assert ap in ps[1..];
        }
      }
    }
  }

  /** getSPActivityPresences: one row per (presence at the activity, linked person of the SP). */
  function GetSPActivityPresences(s: Store, spId: int, activityId: int): (r: seq<PresenceRef>)
    ensures |r| == LinkTotal(s, s.presences, spId, activityId)
    ensures forall x :: x in r ==>
      exists ap, p :: ap in s.presences && p in s.persons && LinkedIn(s, ap, p, spId, activityId) && x == SpPresenceRefOf(s, ap)
    ensures forall ap, p :: ap in s.presences && p in s.persons && LinkedIn(s, ap, p, spId, activityId) ==>
      SpPresenceRefOf(s, ap) in r
    ensures (forall ap, p :: ap in s.presences && p in s.persons ==> !LinkedIn(s, ap, p, spId, activityId)) ==> r == []
  {
    SelectSpPresencesComplete(s, s.presences, spId, activityId);
    SelectSpPresences(s, s.presences, spId, activityId)
  }

  /** A zero `person_count` means no presence and no payment is attributed to the pair. */
  lemma ZeroCountNothingAttributed(s: Store, spId: int, activityId: int)
    requires PersonCount(s, spId, activityId) == 0
    ensures GetSPActivityPresences(s, spId, activityId) == []
    ensures SpPaid(s, s.payments, spId, activityId) == 0.0
  {
    var linked := set ap, p | ap in s.presences && p in s.persons && LinkedIn(s, ap, p, spId, activityId) :: p.id;
    assert forall ap, p :: ap in s.presences && p in s.persons && LinkedIn(s, ap, p, spId, activityId) ==> p.id in linked;
  }

  /** `region ? "WHERE sp.region = $1" : ""`: an absent or empty region selects every SP. */
  predicate InRegion(sp: Sp, region: Option<string>) {
    region.None? || region.value == "" || sp.region == region.value
  }

  function SpsInRegion(sps: seq<Sp>, region: Option<string>): (r: seq<Sp>)
    ensures forall sp :: sp in r <==> sp in sps && InRegion(sp, region)
  {
    if |sps| == 0 then []
    else
      assert forall sp :: sp in sps ==> sp == sps[0] || sp in sps[1..];
      (if InRegion(sps[0], region) then [sps[0]] else []) + SpsInRegion(sps[1..], region)
  }

  /** One row of the basic query: the pair with its person count and payments. */
  datatype BasicRow = BasicRow(sp: Sp, activity: Activity, personCount: nat, totalPaid: real)

  function BasicRowOf(s: Store, sp: Sp, a: Activity): BasicRow {
    BasicRow(sp, a, PersonCount(s, sp.id, a.id), SpPaid(s, s.payments, sp.id, a.id))
  }

  function RowsForSp(s: Store, sp: Sp): (r: seq<BasicRow>)
    ensures |r| == |s.activities|
    ensures forall j :: 0 <= j < |r| ==> r[j] == BasicRowOf(s, sp, s.activities[j])
  {
    seq(|s.activities|, j requires 0 <= j < |s.activities| => BasicRowOf(s, sp, s.activities[j]))
  }

  function CrossJoin(s: Store, sps: seq<Sp>): (r: seq<BasicRow>)
    ensures forall x :: x in r <==> exists sp, a :: sp in sps && a in s.activities && x == BasicRowOf(s, sp, a)
  {
    if |sps| == 0 then []
    else
      assert forall sp :: sp in sps ==> sp == sps[0] || sp in sps[1..];
      assert forall x :: x in RowsForSp(s, sps[0]) <==> exists a :: a in s.activities && x == BasicRowOf(s, sps[0], a) by {
        forall x | x in RowsForSp(s, sps[0])
          ensures exists a :: a in s.activities && x == BasicRowOf(s, sps[0], a)
        {
          var j :| 0 <= j < |s.activities| && RowsForSp(s, sps[0])[j] == x;
          assert s.activities[j] in s.activities;
        }
        forall a | a in s.activities
          ensures BasicRowOf(s, sps[0], a) in RowsForSp(s, sps[0])
        {
          var j :| 0 <= j < |s.activities| && s.activities[j] == a;
          assert RowsForSp(s, sps[0])[j] == BasicRowOf(s, sps[0], a);
        }
      }
      RowsForSp(s, sps[0]) + CrossJoin(s, sps[1..])
  }

  /** getSPActivityBasicData: `SP CROSS JOIN Activities`, restricted to the region. The
      `ORDER BY sp.description, a.date DESC` is not modelled. */
  function GetSPActivityBasicData(s: Store, region: Option<string>): (r: seq<BasicRow>)
    ensures forall x :: x in r <==>
      exists sp, a :: sp in s.sps && InRegion(sp, region) && a in s.activities && x == BasicRowOf(s, sp, a)
  {
    CrossJoin(s, SpsInRegion(s.sps, region))
  }

  /** One row per (SP in the region, activity) pair. */
  lemma {:induction false} CrossJoinLength(s: Store, sps: seq<Sp>)
    ensures |CrossJoin(s, sps)| == |sps| * |s.activities|
  {
    if |sps| > 0 {
      CrossJoinLength(s, sps[1..]);
      assert |sps| * |s.activities| == |s.activities| + (|sps| - 1) * |s.activities|;
    }
  }

  /** The basic query has one row per (SP in the region, activity) pair. */
  lemma BasicDataLength(s: Store, region: Option<string>)
    ensures |GetSPActivityBasicData(s, region)| == |SpsInRegion(s.sps, region)| * |s.activities|
  {
    CrossJoinLength(s, SpsInRegion(s.sps, region));
  }

  datatype SpActivityState = SpActivityState(spId: int, spRegion: string, spDesc: string, activityId: int,
                                             activityDescription: string, activityDate: Date, personCount: nat)

  function FieldsOf(row: BasicRow, personCount: nat): SpActivityState {
    SpActivityState(row.sp.id, row.sp.region, row.sp.description, row.activity.id,
                    row.activity.description, row.activity.date, personCount)
  }

  /** The output row of the pair, following the branch on `person_count`. Both branches
      agree with one formula: the pair's presences priced at the activity's base price,
      less the payments attributed to the pair. */
  function SpActivityStateOf(s: Store, sp: Sp, a: Activity): (f: Formatted<SpActivityState>)
    ensures f.fields == FieldsOf(BasicRowOf(s, sp, a), PersonCount(s, sp.id, a.id))
    ensures f.totalPrice == TotalExpected(s, GetSPActivityPresences(s, sp.id, a.id), a.price)
    ensures f.totalPaid == SpPaid(s, s.payments, sp.id, a.id)
    ensures f.remainingBalance == f.totalPrice - f.totalPaid
  {
    var row := BasicRowOf(s, sp, a);
    if row.personCount > 0 then
      var total := TotalExpected(s, GetSPActivityPresences(s, sp.id, a.id), a.price);
      FormatFinancialResult(FinancialResult(FieldsOf(row, row.personCount), Some(total), Some(row.totalPaid),
                                            Some(total - row.totalPaid)))
    else
      ZeroCountNothingAttributed(s, sp.id, a.id);
      Formatted(FieldsOf(row, 0), 0.0, row.totalPaid, -row.totalPaid)
  }

  method ProcessRow(s: Store, row: BasicRow) returns (f: Formatted<SpActivityState>)
    requires row == BasicRowOf(s, row.sp, row.activity)
    ensures f == SpActivityStateOf(s, row.sp, row.activity)
  {
    if row.personCount > 0 {
      var presences := GetSPActivityPresences(s, row.sp.id, row.activity.id);
      var totalExpectedPrice := CalculateTotalExpectedPrice(s, presences, row.activity.price);
      var remainingBalance := totalExpectedPrice - row.totalPaid;
      var result := FinancialResult(FieldsOf(row, row.personCount), Some(totalExpectedPrice),
                                    Some(row.totalPaid), Some(remainingBalance));
      f := FormatFinancialResult(result);
    } else {
      f := Formatted(FieldsOf(row, 0), 0.0, row.totalPaid, -row.totalPaid);
    }
  }

  /** The output rows of `rows`, in order. */
  function SpStates(s: Store, rows: seq<BasicRow>): (r: seq<Formatted<SpActivityState>>)
    ensures |r| == |rows|
  {
    if |rows| == 0 then []
    else SpStates(s, rows[..|rows| - 1]) + [SpActivityStateOf(s, rows[|rows| - 1].sp, rows[|rows| - 1].activity)]
  }

  lemma {:induction false} SpStatesIndex(s: Store, rows: seq<BasicRow>, i: int)
    requires 0 <= i < |rows|
    ensures SpStates(s, rows)[i] == SpActivityStateOf(s, rows[i].sp, rows[i].activity)
  {
    if i < |rows| - 1 {
      SpStatesIndex(s, rows[..|rows| - 1], i);
    }
  }

  method ProcessRows(s: Store, rows: seq<BasicRow>) returns (r: seq<Formatted<SpActivityState>>)
    requires forall i :: 0 <= i < |rows| ==> rows[i] == BasicRowOf(s, rows[i].sp, rows[i].activity)
    ensures r == SpStates(s, rows)
  {
    r := [];
    for i := 0 to |rows|
      invariant r == SpStates(s, rows[..i])
    {
      var row := rows[i];
      assert row == BasicRowOf(s, row.sp, row.activity);
      var f := ProcessRow(s, row);
      assert rows[..i + 1][..i] == rows[..i];
      r := r + [f];
    }
    assert rows[..|rows|] == rows;
  }

  /** getSPActivityStates: one output row per row of the basic query. */
  method GetSPActivityStates(s: Store, region: Option<string>) returns (r: seq<Formatted<SpActivityState>>)
    ensures var rows := GetSPActivityBasicData(s, region);
      && |r| == |rows|
      && forall i :: 0 <= i < |r| ==> r[i] == SpActivityStateOf(s, rows[i].sp, rows[i].activity)
  {
    var rows := GetSPActivityBasicData(s, region);
    forall i | 0 <= i < |rows|
      ensures rows[i] == BasicRowOf(s, rows[i].sp, rows[i].activity)
    {
      assert rows[i] in rows;
    }
    r := ProcessRows(s, rows);
    forall i | 0 <= i < |rows|
      ensures r[i] == SpActivityStateOf(s, rows[i].sp, rows[i].activity)
    {
      SpStatesIndex(s, rows, i);
    }
  }
}
