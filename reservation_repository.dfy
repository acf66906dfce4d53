/**
 * ReservationRepository: how reservations are stored (status as the enum's name,
 * times of day as "hh:mm:ss"), read back, queried for conflicts and updated.
 */
module ReservationRepository {
  import opened Wrappers
  import opened Time
  import opened Seqs
  import opened ReservationSystemModels
  import opened Store

  /** `ParseReservationStatut`: the reader's mapping from stored text to the enum. */
  function ParseReservationStatut(s: string): Statut
  {
    if s == "En attente" then EnAttente
    else if s == "Confirmée" then Confirmee
    else if s == "Annulée" then Annulee
    else if s == "Terminée" then Terminee
    else EnAttente
  }

  /** What the parser can produce from any string: never EnCours, and each of Confirmée,
      Annulée and Terminée only from its own text. */
  lemma ParseCases(s: string)
    ensures ParseReservationStatut(s) != EnCours
    ensures ParseReservationStatut(s) == Confirmee <==> s == "Confirmée"
    ensures ParseReservationStatut(s) == Annulee <==> s == "Annulée"
    ensures ParseReservationStatut(s) == Terminee <==> s == "Terminée"
    ensures ParseReservationStatut(s) == EnAttente <==> s != "Confirmée" && s != "Annulée" && s != "Terminée"
  {
  }

  /** Storing a status with `ToString()` and parsing it back is the identity except on
      EnCours, which comes back as EnAttente ("EnAttente" itself only through the
      default arm, since the parser expects "En attente"). */
  lemma StatusRoundTrip(s: Statut)
    ensures ParseReservationStatut(s.Name()) == if s == EnCours then EnAttente else s
    ensures ParseReservationStatut(s.Name()) == s <==> s != EnCours
    ensures s.Name() != "En attente"
  {
  }

  /** `TimeSpan.ToString(@"hh\:mm\:ss")` read back by `TimeSpan.Parse`: the sign and
      whole days are not written, so the stored value is |span| modulo one day. */
  function StoredTime(span: int): (t: int)
    ensures 0 <= t < SecondsPerDay
    ensures 0 <= span < SecondsPerDay ==> t == span
  {
    (if span < 0 then -span else span) % SecondsPerDay
  }

  /** The columns written by INSERT and UPDATE for a reservation. */
  function ToRow(r: Reservation): Row
  {
    Row(r.id, r.dateReservation, r.motif, r.statut.Name(), r.userId, r.salleId, r.creneauId,
        r.dateDebut, r.dateFin, StoredTime(r.heureDebut), StoredTime(r.heureFin))
  }

  /** `MapReservationFromReader`. */
  function FromRow(row: Row): Reservation
  {
    Reservation(row.id, row.dateReservation, row.motif, ParseReservationStatut(row.statut),
                row.userId, row.salleId, row.creneauId,
                row.dateDebut, row.dateFin, row.heureDebut, row.heureFin)
  }

  /** Writing a reservation and reading it back gives it back, except that EnCours
      becomes EnAttente; outside a day, times of day are not kept. */
  lemma RowRoundTrip(r: Reservation)
    requires 0 <= r.heureDebut < SecondsPerDay && 0 <= r.heureFin < SecondsPerDay
    ensures FromRow(ToRow(r)) == if r.statut == EnCours then r.(statut := EnAttente) else r
    ensures FromRow(ToRow(r)) == r <==> r.statut != EnCours
  {
    StatusRoundTrip(r.statut);
  }

  /** Times beyond 24 hours lose their days in the store. */
  lemma LongTimeNotKept()
    ensures var r := Reservation(1, 0, "", Confirmee, 1, 1, None, 0, 0, 0, SecondsPerDay + 3600);
            FromRow(ToRow(r)).DateTimeFin() == r.DateTimeFin() - SecondsPerDay
  {
  }

  /** The reservations of a table, mapped by the reader, in row order. */
  function Read(rows: seq<Row>): (r: seq<Reservation>)
    ensures |r| == |rows|
    ensures forall i :: 0 <= i < |rows| ==> r[i] == FromRow(rows[i])
  {
    seq(|rows|, i requires 0 <= i < |rows| => FromRow(rows[i]))
  }

  /** `ORDER BY dateDebut DESC`. */
  function ByDateDebutDesc(row: Row): seq<int>
  {
    [-row.dateDebut]
  }

  /** `GetAllReservations`. */
  function GetAllReservations(rows: seq<Row>): seq<Reservation>
  {
    Read(SortByKey(rows, ByDateDebutDesc))
  }

  /** Every row is read exactly once into the listing, which comes latest start date first. */
  lemma GetAllReservationsSpec(rows: seq<Row>)
    ensures var r := GetAllReservations(rows);
      |r| == |rows| &&
      (forall row :: row in rows ==> FromRow(row) in r) &&
      (forall x :: x in r ==> exists row :: row in rows && x == FromRow(row)) &&
      (forall i, j :: 0 <= i < j < |r| ==> r[i].dateDebut >= r[j].dateDebut)
  {
    var s := SortByKey(rows, ByDateDebutDesc);
    SortSorted(rows, ByDateDebutDesc);
    SortMembers(rows, ByDateDebutDesc);
    ReadDescending(s);
    ReadMembers(s);
  }

  /** `GetReservationById`. */
  function GetReservationById(rows: seq<Row>, id: int): (r: Option<Reservation>)
    ensures r.Some? <==> HasId(rows, (x: Row) => x.id, id)
    ensures r.Some? ==> r.value.id == id && exists i :: 0 <= i < |rows| && r.value == FromRow(rows[i])
  {
    match FindById(rows, (x: Row) => x.id, id)
    case None => None
    case Some(row) => Some(FromRow(row))
  }

  /** `GetSalleReservations`: the room's reservations, latest start date first. */
  function GetSalleReservations(rows: seq<Row>, salleId: int): seq<Reservation>
  {
    Read(SortByKey(Filter(rows, (x: Row) => x.salleId == salleId), ByDateDebutDesc))
  }

  /** The room's reservations all belong to the room and come latest start date first. */
  lemma GetSalleReservationsOrdered(rows: seq<Row>, salleId: int)
    ensures var r := GetSalleReservations(rows, salleId);
      (forall i :: 0 <= i < |r| ==> r[i].salleId == salleId) &&
      (forall i, j :: 0 <= i < j < |r| ==> r[i].dateDebut >= r[j].dateDebut)
  {
    var s := SortByKey(Filter(rows, (x: Row) => x.salleId == salleId), ByDateDebutDesc);
    FilterThenSort(rows, (x: Row) => x.salleId == salleId, ByDateDebutDesc);
    assert forall i :: 0 <= i < |s| ==> s[i] in s;
    ReadDescending(s);
  }

  /** Reading rows sorted by `ByDateDebutDesc` gives reservations latest start date first. */
  lemma ReadDescending(s: seq<Row>)
    requires SortedByKey(s, ByDateDebutDesc)
    ensures var r := Read(s); forall i, j :: 0 <= i < j < |r| ==> r[i].dateDebut >= r[j].dateDebut
  {
    forall i, j | 0 <= i < j < |s| ensures s[i].dateDebut >= s[j].dateDebut {
      LexLeSingle(-s[i].dateDebut, -s[j].dateDebut);
    }
  }

  /** Every row of the room is read into the room's reservations, and nothing else is. */
  lemma GetSalleReservationsMembers(rows: seq<Row>, salleId: int)
    ensures var r := GetSalleReservations(rows, salleId);
      (forall row :: row in rows && row.salleId == salleId ==> FromRow(row) in r) &&
      (forall x :: x in r ==> exists row :: row in rows && row.salleId == salleId && x == FromRow(row))
  {
    var s := SortByKey(Filter(rows, (x: Row) => x.salleId == salleId), ByDateDebutDesc);
    FilterThenSort(rows, (x: Row) => x.salleId == salleId, ByDateDebutDesc);
    ReadMembers(s);
  }

  /** The reading of `s` holds the reading of each row of `s`, and only those. */
  lemma ReadMembers(s: seq<Row>)
    ensures forall row :: row in s ==> FromRow(row) in Read(s)
    ensures forall x :: x in Read(s) ==> exists row :: row in s && x == FromRow(row)
  {
    var r := Read(s);
    forall row | row in s ensures FromRow(row) in r {
      var k :| 0 <= k < |s| && s[k] == row;
      assert r[k] == FromRow(row);
    }
    forall x | x in r ensures exists row :: row in s && x == FromRow(row) {
      var k :| 0 <= k < |r| && r[k] == x;
      assert s[k] in s;
    }
  }


  /** `statut IN ('EnAttente', 'Confirmée')`: the texts HasConflict and HasTimeConflict
      treat as blocking. */
  predicate BlocksSlot(statut: string)
  {
    statut == "EnAttente" || statut == "Confirmée"
  }

  /** Among stored names, exactly EnAttente and Confirmée block: a booking stored as
      EnCours (in progress) does not. */
  lemma {:induction false} BlocksSlotOfName(s: Statut)
    ensures BlocksSlot(s.Name()) <==> s == EnAttente || s == Confirmee
  {
    NameInjective(s, EnAttente);
    NameInjective(s, Confirmee);
  }

  /** `AND id != @excludeId`, present only when an id is given. */
  predicate NotExcluded(id: int, exclude: Option<int>)
  {
    exclude.None? || id != exclude.value
  }

  /** The WHERE clause of `HasConflict`. */
  predicate ConflictRow(row: Row, salleId: int, creneauId: int, exclude: Option<int>)
  {
    row.salleId == salleId && row.creneauId == Some(creneauId) && BlocksSlot(row.statut) &&
    NotExcluded(row.id, exclude)
  }

  /** `HasConflict`: `COUNT(*) > 0` over the matching rows. */
  function HasConflict(rows: seq<Row>, salleId: int, creneauId: int, exclude: Option<int>): (b: bool)
    ensures b <==> exists i :: 0 <= i < |rows| && ConflictRow(rows[i], salleId, creneauId, exclude)
  {
    Count(rows, (row: Row) => ConflictRow(row, salleId, creneauId, exclude)) > 0
  }

  /** The inner condition of `HasTimeConflict`: the `NOT ( ... )` disjunction that clears
      a row. Dates are compared as whole `DateTime` values against the request's
      `.Date`; times of day separately. */
  predicate TimeClauseClears(row: Row, startTime: int, endTime: int)
  {
    var startDate, endDate := At(DateOf(startTime), 0), At(DateOf(endTime), 0);
    var st, et := TimeOfDay(startTime), TimeOfDay(endTime);
    row.dateFin < startDate ||
    row.dateDebut > endDate ||
    (row.dateDebut == startDate && row.heureFin <= st) ||
    (row.dateFin == endDate && row.heureDebut >= et) ||
    (row.dateDebut == startDate && row.dateFin == startDate && (row.heureFin <= st || row.heureDebut >= et))
  }

  /** The WHERE clause of `HasTimeConflict`. */
  predicate TimeConflictRow(row: Row, salleId: int, startTime: int, endTime: int, exclude: Option<int>)
  {
    row.salleId == salleId && BlocksSlot(row.statut) && !TimeClauseClears(row, startTime, endTime) &&
    NotExcluded(row.id, exclude)
  }

  /** `HasTimeConflict`. */
  function HasTimeConflict(rows: seq<Row>, salleId: int, startTime: int, endTime: int, exclude: Option<int>): (b: bool)
    ensures b <==> exists i :: 0 <= i < |rows| && TimeConflictRow(rows[i], salleId, startTime, endTime, exclude)
  {
    Count(rows, (row: Row) => TimeConflictRow(row, salleId, startTime, endTime, exclude)) > 0
  }

  /** A row whose last date is before the request's start date, or whose first date is after
      the request's end date, never conflicts. */
  lemma DisjointDatesNeverConflict(row: Row, salleId: int, startTime: int, endTime: int, exclude: Option<int>)
    requires row.dateFin < At(DateOf(startTime), 0) || row.dateDebut > At(DateOf(endTime), 0)
    ensures !TimeConflictRow(row, salleId, startTime, endTime, exclude)
  {
  }

  /** When the row and the request lie on one and the same day, the clause is the
      comparison of times of day `heureDebut < endTime && heureFin > startTime`:
      touching endpoints do not conflict. */
  lemma SameDayReduction(row: Row, startTime: int, endTime: int)
    requires DateOf(startTime) == DateOf(endTime)
    requires row.dateDebut == At(DateOf(startTime), 0) && row.dateFin == row.dateDebut
    ensures !TimeClauseClears(row, startTime, endTime) <==>
      row.heureDebut < TimeOfDay(endTime) && row.heureFin > TimeOfDay(startTime)
  {
  }

  /** The instants a stored row covers: `dateDebut.Date + heureDebut` to `dateFin.Date + heureFin`. */
  function RowStart(row: Row): int { At(DateOf(row.dateDebut), row.heureDebut) }
  function RowEnd(row: Row): int { At(DateOf(row.dateFin), row.heureFin) }

  /** Half-open intervals [a1, b1) and [a2, b2) overlap. */
  predicate Overlap(a1: int, b1: int, a2: int, b2: int)
  {
    a1 < b2 && a2 < b1
  }

  /** A row stored at midnight of a single day, with times of day under 24 hours. */
  predicate SingleDayRow(row: Row)
  {
    row.dateDebut == row.dateFin && TimeOfDay(row.dateDebut) == 0 &&
    0 <= row.heureDebut < SecondsPerDay && 0 <= row.heureFin < SecondsPerDay
  }

  /** For a single-day row and a request within one day, the clause is exactly half-open
      overlap of the two time ranges, on any pair of days. */
  lemma SingleDayClauseIsOverlap(row: Row, startTime: int, endTime: int)
    requires SingleDayRow(row) && DateOf(startTime) == DateOf(endTime)
    ensures !TimeClauseClears(row, startTime, endTime) <==>
      Overlap(RowStart(row), RowEnd(row), startTime, endTime)
  {
    var d, e := DateOf(row.dateDebut), DateOf(startTime);
    SplitJoin(row.dateDebut);
    SplitJoin(startTime);
    SplitJoin(endTime);
    assert row.dateDebut == At(d, 0);
    AtOrder(d, row.heureDebut, e, TimeOfDay(endTime));
    AtOrder(e, TimeOfDay(startTime), d, row.heureFin);
    AtOrder(d, 0, e, 0);
    AtOrder(e, 0, d, 0);
    JoinSplit(d, 0);
    JoinSplit(e, 0);
  }

  /** A booking Monday 09:00 to Tuesday 17:00 is not seen by a request Tuesday
      08:00-09:00, although the two ranges overlap. */
  lemma MultiDayMissedConflict()
    ensures var row := Row(1, 0, "", "Confirmée", 1, 1, None, 0, SecondsPerDay, 9 * 3600, 17 * 3600);
      var start, end := SecondsPerDay + 8 * 3600, SecondsPerDay + 9 * 3600;
      Overlap(RowStart(row), RowEnd(row), start, end) && !HasTimeConflict([row], 1, start, end, None)
  {
    var row := Row(1, 0, "", "Confirmée", 1, 1, None, 0, SecondsPerDay, 9 * 3600, 17 * 3600);
    var start, end := SecondsPerDay + 8 * 3600, SecondsPerDay + 9 * 3600;
    JoinSplit(1, 8 * 3600);
    JoinSplit(1, 9 * 3600);
    JoinSplit(0, 0);
    JoinSplit(1, 0);
    assert TimeClauseClears(row, start, end);
  }

  /** A booking Monday 09:00 to Tuesday 10:00 is reported against a request Tuesday 11:00
      to Wednesday 12:00, although the two ranges are disjoint. */
  lemma MultiDaySpuriousConflict()
    ensures var row := Row(1, 0, "", "Confirmée", 1, 1, None, 0, SecondsPerDay, 9 * 3600, 10 * 3600);
      var start, end := SecondsPerDay + 11 * 3600, 2 * SecondsPerDay + 12 * 3600;
      !Overlap(RowStart(row), RowEnd(row), start, end) && HasTimeConflict([row], 1, start, end, None)
  {
    var row := Row(1, 0, "", "Confirmée", 1, 1, None, 0, SecondsPerDay, 9 * 3600, 10 * 3600);
    var start, end := SecondsPerDay + 11 * 3600, 2 * SecondsPerDay + 12 * 3600;
    JoinSplit(1, 11 * 3600);
    JoinSplit(2, 12 * 3600);
    JoinSplit(0, 0);
    JoinSplit(1, 0);
    assert !TimeClauseClears(row, start, end);
    assert TimeConflictRow([row][0], 1, start, end, None);
  }

  /** A row stored with status EnCours never conflicts, in either check. */
  lemma InProgressNeverBlocks(row: Row, salleId: int, creneauId: int, startTime: int, endTime: int, exclude: Option<int>)
    requires row.statut == EnCours.Name()
    ensures !ConflictRow(row, salleId, creneauId, exclude)
    ensures !TimeConflictRow(row, salleId, startTime, endTime, exclude)
  {
  }

  /** The table after `UPDATE Reservation SET statut = @statut WHERE id = @id`. */
  function SetStatut(rows: seq<Row>, id: int, statut: string): (r: seq<Row>)
    ensures |r| == |rows|
    ensures forall i :: 0 <= i < |rows| ==> r[i].id == rows[i].id
    ensures forall i :: 0 <= i < |rows| && rows[i].id != id ==> r[i] == rows[i]
    ensures forall i :: 0 <= i < |rows| && rows[i].id == id ==> r[i] == rows[i].(statut := statut)
  {
    seq(|rows|, i requires 0 <= i < |rows| => if rows[i].id == id then rows[i].(statut := statut) else rows[i])
  }

  /** The table after `UpdateReservation(r)`: every column but `dateReservation` and `user_id`
      is overwritten on the rows with `r`'s id. */
  function UpdateRows(rows: seq<Row>, r: Reservation): (res: seq<Row>)
    ensures |res| == |rows|
    ensures forall i :: 0 <= i < |rows| && rows[i].id != r.id ==> res[i] == rows[i]
  {
    seq(|rows|, i requires 0 <= i < |rows| =>
      if rows[i].id == r.id then ToRow(r).(dateReservation := rows[i].dateReservation, userId := rows[i].userId)
      else rows[i])
  }

  /** An update never changes a row's key, booking date or user, and on the updated rows
      every other column reads back as the reservation's. */
  lemma UpdateRowsSpec(rows: seq<Row>, r: Reservation)
    ensures var res := UpdateRows(rows, r);
      forall i :: 0 <= i < |rows| ==>
        res[i].id == rows[i].id && res[i].dateReservation == rows[i].dateReservation &&
        res[i].userId == rows[i].userId &&
        (rows[i].id == r.id ==>
          FromRow(res[i]) == FromRow(ToRow(r)).(dateReservation := rows[i].dateReservation, userId := rows[i].userId))
  {
  }

  /** `CreateReservation`: inserts the reservation under a fresh id, which it returns. */
  method CreateReservation(db: Database, r: Reservation) returns (id: int)
    modifies db`reservations
    ensures id == NextId(old(db.reservations), (x: Row) => x.id)
    ensures db.reservations == old(db.reservations) + [ToRow(r).(id := id)]
  {
    id := NextId(db.reservations, (x: Row) => x.id);
    db.reservations := db.reservations + [ToRow(r).(id := id)];
  }

  /** `UpdateReservationStatus`: true iff a row was updated. */
  method UpdateReservationStatus(db: Database, id: int, s: Statut) returns (ok: bool)
    modifies db`reservations
    ensures ok <==> HasId(old(db.reservations), (x: Row) => x.id, id)
    ensures db.reservations == SetStatut(old(db.reservations), id, s.Name())
  {
    ok := FindById(db.reservations, (x: Row) => x.id, id).Some?;
    db.reservations := SetStatut(db.reservations, id, s.Name());
  }

  /** `UpdateReservation`. */
  method UpdateReservation(db: Database, r: Reservation) returns (ok: bool)
    modifies db`reservations
    ensures ok <==> HasId(old(db.reservations), (x: Row) => x.id, r.id)
    ensures db.reservations == UpdateRows(old(db.reservations), r)
  {
    ok := FindById(db.reservations, (x: Row) => x.id, r.id).Some?;
    db.reservations := UpdateRows(db.reservations, r);
  }

  /** `CancelReservation`: the status update to Annulée, and nothing else. */
  method CancelReservation(db: Database, id: int) returns (ok: bool)
    modifies db`reservations
    ensures ok <==> HasId(old(db.reservations), (x: Row) => x.id, id)
    ensures db.reservations == SetStatut(old(db.reservations), id, "Annulée")
  {
    ok := UpdateReservationStatus(db, id, Annulee);
  }

  /** `DeleteReservation`. */
  method DeleteReservation(db: Database, id: int) returns (ok: bool)
    modifies db`reservations
    ensures ok <==> HasId(old(db.reservations), (x: Row) => x.id, id)
    ensures db.reservations == DeleteById(old(db.reservations), (x: Row) => x.id, id)
  {
    ok := FindById(db.reservations, (x: Row) => x.id, id).Some?;
    db.reservations := DeleteById(db.reservations, (x: Row) => x.id, id);
  }
}
