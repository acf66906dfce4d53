/**
 * ReservationStatusService: the periodic pass that moves reservations to EnCours or
 * Terminée from the current time, and the status a slot is expected to have.
 */
module ReservationStatusService {
  import opened Wrappers
  import opened Time
  import opened Seqs
  import opened ReservationSystemModels
  import opened Store
  import RR = ReservationRepository

  /** The status the pass writes for one reservation, or `None` when it writes nothing:
      Annulée is left alone; past the end it becomes Terminée; between start and end it
      becomes EnCours; before the start nothing changes. */
  function NextStatus(r: Reservation, now: int): Option<Statut>
  {
    if r.statut == Annulee then None
    else if now >= r.DateTimeFin() then
      (if r.statut != Terminee then Some(Terminee) else None)
    else if now >= r.DateTimeDebut() && now < r.DateTimeFin() then
      (if r.statut != EnCours then Some(EnCours) else None)
    else None
  }

  /** The status a reservation has once the pass has looked at it. */
  function StatusAfter(r: Reservation, now: int): Statut
  {
    match NextStatus(r, now)
    case Some(s) => s
    case None => r.statut
  }

  /** The rule, case by case: a write happens only when the status actually changes, never
      for Annulée, and never before the start. */
  lemma NextStatusCases(r: Reservation, now: int)
    ensures NextStatus(r, now).Some? ==> NextStatus(r, now).value != r.statut && r.statut != Annulee
    ensures NextStatus(r, now).Some? ==> now >= r.DateTimeDebut() || now >= r.DateTimeFin()
    ensures StatusAfter(r, now) ==
      if r.statut == Annulee then Annulee
      else if now >= r.DateTimeFin() then Terminee
      else if now >= r.DateTimeDebut() then EnCours
      else r.statut
  {
  }

  /** On the in-memory reservation the pass is idempotent: once its status is set, a second
      look at the same time writes nothing. */
  lemma NextStatusIdempotent(r: Reservation, now: int)
    ensures NextStatus(r.(statut := StatusAfter(r, now)), now) == None
  {
  }

  /** What the pass does to one stored row. */
  function Step(row: Row, now: int): (r: Row)
    ensures r.(statut := row.statut) == row
  {
    match NextStatus(RR.FromRow(row), now)
    case Some(s) => row.(statut := s.Name())
    case None => row
  }

  /** The stored content is a fixed point of the pass... */
  lemma StepIdempotent(row: Row, now: int)
    ensures Step(Step(row, now), now) == Step(row, now)
  {
    RR.ParseCases(row.statut);
    if NextStatus(RR.FromRow(row), now).Some? {
      var s := NextStatus(RR.FromRow(row), now).value;
      RR.StatusRoundTrip(s);
    }
  }

  /** ... but a row written as "EnCours" reads back as EnAttente, so every later pass during
      the reservation writes it again. */
  lemma InProgressRewrittenEveryPass(row: Row, now: int)
    requires NextStatus(RR.FromRow(row), now) == Some(EnCours)
    ensures NextStatus(RR.FromRow(Step(row, now)), now) == Some(EnCours)
  {
    RR.StatusRoundTrip(EnCours);
  }

  /** The calls to `UpdateReservationStatus` the pass makes for the reservations `rs`, in order. */
  function ApplyUpdates(rows: seq<Row>, rs: seq<Reservation>, now: int): (r: seq<Row>)
    ensures |r| == |rows|
    ensures forall i :: 0 <= i < |rows| ==> r[i].id == rows[i].id
  {
    if rs == [] then rows
    else
      var prev := ApplyUpdates(rows, rs[..|rs| - 1], now);
      var x := rs[|rs| - 1];
      match NextStatus(x, now)
      case None => prev
      case Some(s) => RR.SetStatut(prev, x.id, s.Name())
  }

  /** One more reading applies one more update and counts one more change when it
      makes one. */
  lemma PassPrefix(rows: seq<Row>, rs: seq<Reservation>, i: int, now: int)
    requires 0 <= i < |rs|
    ensures ApplyUpdates(rows, rs[..i + 1], now) ==
      match NextStatus(rs[i], now)
      case None => ApplyUpdates(rows, rs[..i], now)
      case Some(s) => RR.SetStatut(ApplyUpdates(rows, rs[..i], now), rs[i].id, s.Name())
    ensures CountChanges(rs[..i + 1], now) == CountChanges(rs[..i], now) + if Changes(rs[i], now) then 1 else 0
  {
    assert rs[..i + 1][..i] == rs[..i];
  }

  /** `x` is the reading of one of the rows. */
  predicate ReadFrom(x: Reservation, rows: seq<Row>)
  {
    exists j :: 0 <= j < |rows| && x == RR.FromRow(rows[j])
  }

  /** With unique ids, the updates leave each row either untouched or stepped, the latter
      exactly when its reading is among `rs`. */
  lemma {:induction false} ApplyUpdatesPointwise(rows: seq<Row>, rs: seq<Reservation>, now: int)
    requires UniqueIds(rows, (x: Row) => x.id)
    requires forall k :: 0 <= k < |rs| ==> ReadFrom(rs[k], rows)
    ensures forall i :: 0 <= i < |rows| ==>
      ApplyUpdates(rows, rs, now)[i] == if RR.FromRow(rows[i]) in rs then Step(rows[i], now) else rows[i]
  {
    if rs != [] {
      var init, x := rs[..|rs| - 1], rs[|rs| - 1];
      assert rs == init + [x];
      ApplyUpdatesPointwise(rows, init, now);
      var j :| 0 <= j < |rows| && x == RR.FromRow(rows[j]);
      forall i | 0 <= i < |rows|
        ensures ApplyUpdates(rows, rs, now)[i] == if RR.FromRow(rows[i]) in rs then Step(rows[i], now) else rows[i]
      {
        assert i != j ==> rows[i].id != x.id;
        PointwiseLast(rows, init, x, now, i, j);
      }
    }
  }

  /** The step of `ApplyUpdatesPointwise` at row `i`, when the last reading is row `j`'s. */
  lemma PointwiseLast(rows: seq<Row>, init: seq<Reservation>, x: Reservation, now: int, i: int, j: int)
    requires 0 <= i < |rows| && 0 <= j < |rows| && x == RR.FromRow(rows[j])
    requires i != j ==> rows[i].id != x.id
    requires ApplyUpdates(rows, init, now)[i] == if RR.FromRow(rows[i]) in init then Step(rows[i], now) else rows[i]
    ensures ApplyUpdates(rows, init + [x], now)[i] ==
      if RR.FromRow(rows[i]) in init + [x] then Step(rows[i], now) else rows[i]
  {
    assert (init + [x])[..|init|] == init;
    assert RR.FromRow(rows[i]) in init + [x] <==> RR.FromRow(rows[i]) in init || RR.FromRow(rows[i]) == x;
    if i != j {
      assert RR.FromRow(rows[i]) != x;
    }
  }

  /** The pass on the whole table, row by row. */
  function StatusPass(rows: seq<Row>, now: int): (r: seq<Row>)
    ensures |r| == |rows|
    ensures forall i :: 0 <= i < |rows| ==> r[i] == Step(rows[i], now)
  {
    seq(|rows|, i requires 0 <= i < |rows| => Step(rows[i], now))
  }

  /** Every reservation `GetAllReservations` returns is the reading of a row... */
  lemma GetAllReservationsRead(rows: seq<Row>)
    ensures forall k :: 0 <= k < |RR.GetAllReservations(rows)| ==> ReadFrom(RR.GetAllReservations(rows)[k], rows)
  {
    var sorted := SortByKey(rows, RR.ByDateDebutDesc);
    SortMembers(rows, RR.ByDateDebutDesc);
    var all := RR.GetAllReservations(rows);
    forall k | 0 <= k < |all| ensures ReadFrom(all[k], rows) {
      assert sorted[k] in rows;
      var j :| 0 <= j < |rows| && rows[j] == sorted[k];
    }
  }

  /** ... and the reading of every row is returned. */
  lemma GetAllReservationsComplete(rows: seq<Row>)
    ensures forall i :: 0 <= i < |rows| ==> RR.FromRow(rows[i]) in RR.GetAllReservations(rows)
  {
    var sorted := SortByKey(rows, RR.ByDateDebutDesc);
    SortMembers(rows, RR.ByDateDebutDesc);
    var all := RR.GetAllReservations(rows);
    forall i | 0 <= i < |rows| ensures RR.FromRow(rows[i]) in all {
      assert rows[i] in sorted;
      var k :| 0 <= k < |sorted| && sorted[k] == rows[i];
      assert all[k] == RR.FromRow(rows[i]);
    }
  }

  /** On a table with unique ids, one pass of `UpdateAllReservationStatuses` is the row-by-row
      `Step`, whatever the listing order. */
  lemma PassIsStatusPass(rows: seq<Row>, now: int)
    requires UniqueIds(rows, (x: Row) => x.id)
    ensures ApplyUpdates(rows, RR.GetAllReservations(rows), now) == StatusPass(rows, now)
  {
    GetAllReservationsRead(rows);
    GetAllReservationsComplete(rows);
    ApplyUpdatesPointwise(rows, RR.GetAllReservations(rows), now);
  }

  /** Two passes at the same time leave the same rows as one. */
  lemma StatusPassIdempotent(rows: seq<Row>, now: int)
    ensures StatusPass(StatusPass(rows, now), now) == StatusPass(rows, now)
  {
    forall i | 0 <= i < |rows| ensures StatusPass(StatusPass(rows, now), now)[i] == StatusPass(rows, now)[i] {
      StepIdempotent(rows[i], now);
    }
  }

  /** Whether the pass writes the reservation. */
  predicate Changes(r: Reservation, now: int)
  {
    NextStatus(r, now).Some?
  }

  /** The number of writes the pass makes for `rs`, counted from the end like `ApplyUpdates`. */
  function CountChanges(rs: seq<Reservation>, now: int): nat
  {
    if rs == [] then 0 else CountChanges(rs[..|rs| - 1], now) + (if Changes(rs[|rs| - 1], now) then 1 else 0)
  }

  lemma CountChangesIsCount(rs: seq<Reservation>, now: int)
    ensures CountChanges(rs, now) == Count(rs, (r: Reservation) => Changes(r, now))
  {
    CountChangesIsCountBack(rs, now);
    CountBackIsCount(rs, (r: Reservation) => Changes(r, now));
  }

  lemma {:induction false} CountChangesIsCountBack(rs: seq<Reservation>, now: int)
    ensures CountChanges(rs, now) == CountBack(rs, (r: Reservation) => Changes(r, now))
  {
    if rs != [] {
      CountChangesIsCountBack(rs[..|rs| - 1], now);
    }
  }

  /** `UpdateAllReservationStatuses` (the current time is a parameter); it also returns the
      number of successful updates it logs. */
  method UpdateAllReservationStatuses(db: Database, now: int) returns (updatedCount: nat)
    modifies db`reservations
    ensures db.reservations == ApplyUpdates(old(db.reservations), RR.GetAllReservations(old(db.reservations)), now)
    ensures updatedCount == Count(RR.GetAllReservations(old(db.reservations)), (r: Reservation) => Changes(r, now))
  {
    var allReservations := RR.GetAllReservations(db.reservations);
    if |allReservations| == 0 {
      return 0;
    }
    GetAllReservationsRead(db.reservations);
    updatedCount := UpdateEach(db, allReservations, now, db.reservations);
    CountChangesIsCount(allReservations, now);
  }

  /** The `foreach` over the reservations read from `rows`. */
  method UpdateEach(db: Database, all: seq<Reservation>, now: int, ghost rows: seq<Row>) returns (updatedCount: nat)
    requires db.reservations == rows && forall k :: 0 <= k < |all| ==> ReadFrom(all[k], rows)
    modifies db`reservations
    ensures db.reservations == ApplyUpdates(rows, all, now)
    ensures updatedCount == CountChanges(all, now)
  {
    updatedCount := 0;
    for i := 0 to |all|
      invariant db.reservations == ApplyUpdates(rows, all[..i], now)
      invariant updatedCount == CountChanges(all[..i], now)
    {
      updatedCount := UpdateNext(db, all, i, now, rows, updatedCount);
    }
    assert all[..|all|] == all;
  }

  /** The body of the `foreach` on the `i`-th reservation: the update count grows by one
      when the update is made and succeeds. */
  method UpdateNext(db: Database, all: seq<Reservation>, i: int, now: int, ghost rows: seq<Row>, count: nat)
    returns (next: nat)
    requires 0 <= i < |all| && forall k :: 0 <= k < |all| ==> ReadFrom(all[k], rows)
    requires db.reservations == ApplyUpdates(rows, all[..i], now) && count == CountChanges(all[..i], now)
    modifies db`reservations
    ensures db.reservations == ApplyUpdates(rows, all[..i + 1], now)
    ensures next == CountChanges(all[..i + 1], now)
  {
    var reservation := all[i];
    PassPrefix(rows, all, i, now);
    var updated := UpdateOne(db, reservation, now, rows);
    next := count;
    if updated {
      next := count + 1;
    }
  }

  /** One turn of the `foreach`: it returns whether an update was made and succeeded. */
  method UpdateOne(db: Database, reservation: Reservation, now: int, ghost rows: seq<Row>) returns (updated: bool)
    requires ReadFrom(reservation, rows)
    requires |db.reservations| == |rows| && forall j :: 0 <= j < |rows| ==> db.reservations[j].id == rows[j].id
    modifies db`reservations
    ensures updated == Changes(reservation, now)
    ensures db.reservations ==
      match NextStatus(reservation, now)
      case None => old(db.reservations)
      case Some(s) => RR.SetStatut(old(db.reservations), reservation.id, s.Name())
  {
    if reservation.statut == Annulee {
      return false;
    }
    var reservationStart := reservation.DateTimeDebut();
    var reservationEnd := reservation.DateTimeFin();
    var newStatus := reservation.statut;
    var statusChanged := false;
    if now >= reservationEnd {
      if reservation.statut != Terminee {
        newStatus := Terminee;
        statusChanged := true;
      }
    } else if now >= reservationStart && now < reservationEnd {
      if reservation.statut != EnCours {
        newStatus := EnCours;
        statusChanged := true;
      }
    }
    updated := false;
    if statusChanged {
      ghost var j :| 0 <= j < |rows| && reservation == RR.FromRow(rows[j]);
      assert db.reservations[j].id == reservation.id;
      updated := RR.UpdateReservationStatus(db, reservation.id, newStatus);
    }
  }

  /** `UpdateReservationStatus`: the repository call. */
  method UpdateReservationStatus(db: Database, reservationId: int, newStatus: Statut) returns (ok: bool)
    modifies db`reservations
    ensures ok <==> HasId(old(db.reservations), (x: Row) => x.id, reservationId)
    ensures db.reservations == RR.SetStatut(old(db.reservations), reservationId, newStatus.Name())
  {
    ok := RR.UpdateReservationStatus(db, reservationId, newStatus);
  }

  /** `GetExpectedStatus` (the current time is a parameter). */
  function GetExpectedStatus(creneau: Option<Creneau>, now: int): Statut
  {
    match creneau
    case None => EnAttente
    case Some(c) =>
      if now >= c.fin then Terminee
      else if now >= c.debut && now < c.fin then EnCours
      else Confirmee
  }

  /** A Confirmée reservation that spans exactly its slot has, after the pass, the status
      `GetExpectedStatus` gives for that slot. */
  lemma ExpectedStatusAgreesWithPass(r: Reservation, c: Creneau, now: int)
    requires r.statut == Confirmee
    requires r.DateTimeDebut() == c.debut && r.DateTimeFin() == c.fin
    ensures StatusAfter(r, now) == GetExpectedStatus(Some(c), now)
  {
  }

  /** A reservation holding the defaults of `new Reservation` (start and end at the epoch)
      becomes Terminée at the first pass. */
  lemma DefaultDatesEndAtOnce(r: Reservation, now: int)
    requires r.statut == Confirmee
    requires r.dateDebut == 0 && r.dateFin == 0 && r.heureDebut == 0 && r.heureFin == 0
    requires now >= 0
    ensures NextStatus(r, now) == Some(Terminee)
  {
    assert DateOf(0) == 0;
  }
}
