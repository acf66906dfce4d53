/**
 * ConflictResolutionService: conflict checks for a room over a time range, the list of
 * conflicting slot bookings, the conflict message, free slots of a day and the room's
 * availability summary.
 */
module ConflictResolutionService {
  import opened Wrappers
  import opened Text
  import opened Time
  import opened Seqs
  import opened ReservationSystemModels
  import opened Store
  import RR = ReservationRepository
  import CR = CreneauRepository

  const InvalidRangeMessage: string := "La date/heure de début doit être avant la date/heure de fin"
  const NoConflictMessage: string := "Aucun conflit détecté"

  /** `CheckCreneauConflict`: the slot check with no excluded id. */
  function CheckCreneauConflict(rows: seq<Row>, salleId: int, creneauId: int): (b: bool)
    ensures b <==> exists i :: 0 <= i < |rows| && RR.ConflictRow(rows[i], salleId, creneauId, None)
  {
    RR.HasConflict(rows, salleId, creneauId, None)
  }

  /** `CheckTimeConflict`: the `ArgumentException` for an empty or reversed range, otherwise
      the repository's custom-range check. */
  function CheckTimeConflict(rows: seq<Row>, salleId: int, startTime: int, endTime: int): (r: Result<bool>)
    ensures r.Failure? <==> startTime >= endTime
    ensures r.Failure? ==> r.error == InvalidRangeMessage
    ensures r.Success? ==> r.value == RR.HasTimeConflict(rows, salleId, startTime, endTime, None)
  {
    if startTime >= endTime then Failure(InvalidRangeMessage)
    else Success(RR.HasTimeConflict(rows, salleId, startTime, endTime, None))
  }

  /** `IsSalleAvailable`: the negation of `CheckTimeConflict`, whose exception it lets through. */
  function IsSalleAvailable(rows: seq<Row>, salleId: int, startTime: int, endTime: int): (r: Result<bool>)
    ensures r.Failure? <==> CheckTimeConflict(rows, salleId, startTime, endTime).Failure?
    ensures r.Failure? ==> r == CheckTimeConflict(rows, salleId, startTime, endTime)
    ensures r.Success? ==> r.value == !CheckTimeConflict(rows, salleId, startTime, endTime).value
  {
    match CheckTimeConflict(rows, salleId, startTime, endTime)
    case Failure(e) => Failure(e)
    case Success(b) => Success(!b)
  }

  /** The `Where` of `GetConflictingReservations` and `GetAvailableCreneaux`. */
  predicate Considered(r: Reservation)
  {
    r.statut == Confirmee || r.statut == EnAttente
  }

  /** The slot a reservation's `CreneauId` resolves to, if any. */
  function SlotOf(r: Reservation, cs: seq<Creneau>): Option<Creneau>
  {
    match r.creneauId
    case None => None
    case Some(id) => CR.GetCreneauById(cs, id)
  }

  /** The loop's test `!(Fin <= startTime || Debut >= endTime)`. */
  predicate Reported(r: Reservation, cs: seq<Creneau>, startTime: int, endTime: int)
  {
    SlotOf(r, cs).Some? && !(SlotOf(r, cs).value.fin <= startTime || SlotOf(r, cs).value.debut >= endTime)
  }

  /** A reported reservation with its `Creneau` navigation property loaded. */
  datatype Conflict = Conflict(reservation: Reservation, creneau: Creneau)

  /** What the `foreach` collects from a list of considered reservations. */
  function Conflicts(rs: seq<Reservation>, cs: seq<Creneau>, startTime: int, endTime: int): seq<Conflict>
  {
    if rs == [] then []
    else
      var r := rs[|rs| - 1];
      Conflicts(rs[..|rs| - 1], cs, startTime, endTime) +
        (if Reported(r, cs, startTime, endTime) then [Conflict(r, SlotOf(r, cs).value)] else [])
  }

  /** The reservations of a conflict list. */
  function ReservationsOf(conflicts: seq<Conflict>): (r: seq<Reservation>)
    ensures |r| == |conflicts|
    ensures forall i :: 0 <= i < |r| ==> r[i] == conflicts[i].reservation
  {
    seq(|conflicts|, i requires 0 <= i < |conflicts| => conflicts[i].reservation)
  }

  /** Listing the reservations of two conflict lists one after the other. */
  lemma ReservationsOfAppend(a: seq<Conflict>, b: seq<Conflict>)
    ensures ReservationsOf(a + b) == ReservationsOf(a) + ReservationsOf(b)
  {
    assert forall i :: 0 <= i < |a + b| ==> ReservationsOf(a + b)[i] == (ReservationsOf(a) + ReservationsOf(b))[i];
  }

  /** The collected reservations are the filter of the list by `Reported`. */
  lemma {:induction false} ConflictsAreFilter(rs: seq<Reservation>, cs: seq<Creneau>, startTime: int, endTime: int)
    ensures ReservationsOf(Conflicts(rs, cs, startTime, endTime)) == Filter(rs, (r: Reservation) => Reported(r, cs, startTime, endTime))
  {
    var p := (r: Reservation) => Reported(r, cs, startTime, endTime);
    if rs != [] {
      var init, r := rs[..|rs| - 1], rs[|rs| - 1];
      ConflictsAreFilter(init, cs, startTime, endTime);
      assert rs == init + [r];
      FilterAppend(init, r, p);
      var tail := if Reported(r, cs, startTime, endTime) then [Conflict(r, SlotOf(r, cs).value)] else [];
      assert Conflicts(rs, cs, startTime, endTime) == Conflicts(init, cs, startTime, endTime) + tail;
      ReservationsOfAppend(Conflicts(init, cs, startTime, endTime), tail);
      assert ReservationsOf(tail) == if p(r) then [r] else [];
    }
  }

  /** Each collected reservation is paired with its own resolved slot. */
  lemma {:induction false} ConflictsPairSlots(rs: seq<Reservation>, cs: seq<Creneau>, startTime: int, endTime: int)
    ensures forall k :: 0 <= k < |Conflicts(rs, cs, startTime, endTime)| ==>
      var c := Conflicts(rs, cs, startTime, endTime)[k]; SlotOf(c.reservation, cs) == Some(c.creneau)
  {
    if rs != [] {
      var init, r := rs[..|rs| - 1], rs[|rs| - 1];
      ConflictsPairSlots(init, cs, startTime, endTime);
    }
  }

  /** The specification of `GetConflictingReservations`. */
  function ConflictingReservations(rows: seq<Row>, cs: seq<Creneau>, salleId: int, startTime: int, endTime: int): seq<Conflict>
  {
    Conflicts(Filter(RR.GetSalleReservations(rows, salleId), Considered), cs, startTime, endTime)
  }

  /** `GetConflictingReservations`: the room's considered reservations, in the repository's
      order, whose slot overlaps the range. */
  method GetConflictingReservations(db: Database, salleId: int, startTime: int, endTime: int)
    returns (conflicts: seq<Conflict>)
    ensures conflicts == ConflictingReservations(db.reservations, db.creneaux, salleId, startTime, endTime)
  {
    var all := Filter(RR.GetSalleReservations(db.reservations, salleId), Considered);
    conflicts := [];
    var i := 0;
    while i < |all|
      invariant 0 <= i <= |all|
      invariant conflicts == Conflicts(all[..i], db.creneaux, startTime, endTime)
    {
      var reservation := all[i];
      // The reader never loads `Creneau`, so the slot is always looked up by id.
      var creneau := SlotOf(reservation, db.creneaux);
      if creneau.Some? {
        if !(creneau.value.fin <= startTime || creneau.value.debut >= endTime) {
          conflicts := conflicts + [Conflict(reservation, creneau.value)];
        }
      }
      i := i + 1;
      assert all[..i][..i - 1] == all[..i - 1];
    }
    assert all[..i] == all;
  }

  /** What is reported is the room's list (latest start date first) filtered by "considered
      and reported", so it keeps the list's order. */
  lemma ConflictingReservationsFilter(rows: seq<Row>, cs: seq<Creneau>, salleId: int, startTime: int, endTime: int)
    ensures var list := RR.GetSalleReservations(rows, salleId);
      var reported := ReservationsOf(ConflictingReservations(rows, cs, salleId, startTime, endTime));
      reported == Filter(list, (r: Reservation) => Considered(r) && Reported(r, cs, startTime, endTime)) &&
      IsSubsequence(reported, list)
  {
    var list := RR.GetSalleReservations(rows, salleId);
    ConsideredAndReported(list, cs, startTime, endTime);
    FilterIsSubsequence(list, (r: Reservation) => Considered(r) && Reported(r, cs, startTime, endTime));
  }

  lemma ConsideredAndReported(list: seq<Reservation>, cs: seq<Creneau>, startTime: int, endTime: int)
    ensures ReservationsOf(Conflicts(Filter(list, Considered), cs, startTime, endTime)) ==
      Filter(list, (r: Reservation) => Considered(r) && Reported(r, cs, startTime, endTime))
  {
    var p := (r: Reservation) => Reported(r, cs, startTime, endTime);
    ConflictsAreFilter(Filter(list, Considered), cs, startTime, endTime);
    FilterFilter(list, Considered, p, (r: Reservation) => Considered(r) && Reported(r, cs, startTime, endTime));
  }

  /** Exactly the room's Confirmée or EnAttente reservations whose slot has `Debut < endTime`
      and `Fin > startTime` are reported; so slots that only touch the range, reservations
      without a slot, and EnCours, Terminée or Annulée reservations never are. */
  lemma ConflictingReservationsMembers(rows: seq<Row>, cs: seq<Creneau>, salleId: int, startTime: int, endTime: int, r: Reservation)
    ensures r in ReservationsOf(ConflictingReservations(rows, cs, salleId, startTime, endTime)) <==>
      (r in RR.GetSalleReservations(rows, salleId) && Considered(r) && r.creneauId.Some? &&
       SlotOf(r, cs).Some? && SlotOf(r, cs).value.debut < endTime && SlotOf(r, cs).value.fin > startTime)
  {
    ConflictingReservationsFilter(rows, cs, salleId, startTime, endTime);
  }

  /** A row stored as "EnCours" is read back as EnAttente, so it is reported here while the
      custom-range check `HasTimeConflict` ignores it. */
  lemma InProgressRowReportedButNotBlocking(row: Row, salleId: int, startTime: int, endTime: int)
    requires row.statut == EnCours.Name()
    ensures Considered(RR.FromRow(row))
    ensures !RR.TimeConflictRow(row, salleId, startTime, endTime, None)
  {
  }

  /** The first line of the conflict message. */
  function Header(salleId: int, salleName: string): string
  {
    var roomDisplay := if IsNullOrEmpty(salleName) then "salle " + IntToString(salleId) else salleName;
    "La " + roomDisplay + " est déjà réservée pendant cette période:\n\n"
  }

  /** One bullet of the conflict message; date formatting is a parameter. */
  function Line(c: Conflict, formatStart: int -> string, formatEnd: int -> string): string
  {
    "• " + formatStart(c.creneau.debut) + " - " + formatEnd(c.creneau.fin) +
    (if !IsNullOrEmpty(c.reservation.motif) then " (" + c.reservation.motif + ")" else "") + "\n"
  }

  /** The bullets, in list order. */
  function Lines(cs: seq<Conflict>, formatStart: int -> string, formatEnd: int -> string): seq<char>
  {
    if cs == [] then "" else Lines(cs[..|cs| - 1], formatStart, formatEnd) + Line(cs[|cs| - 1], formatStart, formatEnd)
  }

  /** `GenerateConflictErrorMessage` (`{Debut:dd/MM/yyyy HH:mm}` and `{Fin:HH:mm}` are the two
      formatting parameters). */
  method GenerateConflictErrorMessage(db: Database, salleId: int, startTime: int, endTime: int, salleName: string,
                                      formatStart: int -> string, formatEnd: int -> string)
    returns (message: string)
    ensures var conflicts := ConflictingReservations(db.reservations, db.creneaux, salleId, startTime, endTime);
      (message == NoConflictMessage <==> conflicts == []) &&
      (conflicts != [] ==> message == Header(salleId, salleName) + Lines(conflicts, formatStart, formatEnd))
  {
    var conflicts := GetConflictingReservations(db, salleId, startTime, endTime);
    if |conflicts| == 0 {
      return NoConflictMessage;
    }
    var roomDisplay := if IsNullOrEmpty(salleName) then "salle " + IntToString(salleId) else salleName;
    var header := "La " + roomDisplay + " est déjà réservée pendant cette période:\n\n";
    assert header == Header(salleId, salleName);
    message := AppendLines(header, conflicts, formatStart, formatEnd);
    assert message[0] == header[0] == 'L';
    assert NoConflictMessage[0] == 'A';
  }

  /** The `foreach` of `GenerateConflictErrorMessage`: one bullet per conflict. */
  method AppendLines(header: string, conflicts: seq<Conflict>, formatStart: int -> string, formatEnd: int -> string)
    returns (message: string)
    ensures message == header + Lines(conflicts, formatStart, formatEnd)
  {
    message := header;
    var i := 0;
    while i < |conflicts|
      invariant 0 <= i <= |conflicts|
      invariant message == header + Lines(conflicts[..i], formatStart, formatEnd)
    {
      var line := BulletLine(conflicts[i], formatStart, formatEnd);
      LinesStep(conflicts, i, formatStart, formatEnd);
      message := message + line;
      i := i + 1;
    }
    assert conflicts[..i] == conflicts;
  }

  /** One bullet of the message: the slot's start and end, the motive in parentheses when
      there is one, and a new line. */
  method BulletLine(conflict: Conflict, formatStart: int -> string, formatEnd: int -> string) returns (line: string)
    ensures line == Line(conflict, formatStart, formatEnd)
  {
    line := "• " + formatStart(conflict.creneau.debut) + " - " + formatEnd(conflict.creneau.fin);
    if !IsNullOrEmpty(conflict.reservation.motif) {
      line := line + " (" + conflict.reservation.motif + ")";
    }
    line := line + "\n";
  }

  /** The lines of one more conflict are the lines so far and its own line. */
  lemma LinesStep(conflicts: seq<Conflict>, i: int, formatStart: int -> string, formatEnd: int -> string)
    requires 0 <= i < |conflicts|
    ensures Lines(conflicts[..i + 1], formatStart, formatEnd) ==
      Lines(conflicts[..i], formatStart, formatEnd) + Line(conflicts[i], formatStart, formatEnd)
  {
    assert conflicts[..i + 1][..i] == conflicts[..i];
  }

  /** The `HashSet` of slot ids held by the room's considered reservations. */
  function BookedCreneauIds(rows: seq<Row>, salleId: int): set<Option<int>>
  {
    set r | r in RR.GetSalleReservations(rows, salleId) && Considered(r) :: r.creneauId
  }

  /** `GetAvailableCreneaux`: the slots starting on `date`'s day, by start, whose id no
      considered reservation of the room holds. */
  function GetAvailableCreneaux(rows: seq<Row>, cs: seq<Creneau>, salleId: int, date: int): seq<Creneau>
  {
    var allCreneaux := SortByKey(Filter(CR.GetAllCreneaux(cs), (c: Creneau) => DateOf(c.debut) == DateOf(date)), CR.ByDebut);
    var booked := BookedCreneauIds(rows, salleId);
    Filter(allCreneaux, (c: Creneau) => Some(c.id) !in booked)
  }

  /** The free slots are ordered by start. */
  lemma GetAvailableCreneauxOrdered(rows: seq<Row>, cs: seq<Creneau>, salleId: int, date: int)
    ensures CR.OrderedByDebut(GetAvailableCreneaux(rows, cs, salleId, date))
  {
    var sameDay := (c: Creneau) => DateOf(c.debut) == DateOf(date);
    var sorted := SortByKey(Filter(CR.GetAllCreneaux(cs), sameDay), CR.ByDebut);
    SortSorted(Filter(CR.GetAllCreneaux(cs), sameDay), CR.ByDebut);
    var booked := BookedCreneauIds(rows, salleId);
    SortThenFilter(Filter(CR.GetAllCreneaux(cs), sameDay), (c: Creneau) => Some(c.id) !in booked, CR.ByDebut);
    CR.SortedByDebut(GetAvailableCreneaux(rows, cs, salleId, date));
  }

  /** A slot is free on `date` exactly when it exists, starts on that day and no Confirmée
      or EnAttente reservation of the room holds its id. */
  lemma GetAvailableCreneauxMembers(rows: seq<Row>, cs: seq<Creneau>, salleId: int, date: int, c: Creneau)
    ensures c in GetAvailableCreneaux(rows, cs, salleId, date) <==>
      (c in cs && DateOf(c.debut) == DateOf(date) &&
       !(exists x :: x in RR.GetSalleReservations(rows, salleId) && Considered(x) && x.creneauId == Some(c.id)))
  {
    var sameDay := (c: Creneau) => DateOf(c.debut) == DateOf(date);
    var all := CR.GetAllCreneaux(cs);
    assert c in all <==> c in multiset(all);
    assert c in cs <==> c in multiset(cs);
    SortMembers(Filter(all, sameDay), CR.ByDebut);
  }

  /** `SalleAvailabilityStatus`. */
  datatype AvailabilityStatus = AvailabilityStatus(isAvailable: bool, conflictCount: int, conflictingReservations: seq<Conflict>)

  /** `GetSalleAvailabilityStatus`. */
  method GetSalleAvailabilityStatus(db: Database, salleId: int, startTime: int, endTime: int)
    returns (r: Result<AvailabilityStatus>)
    ensures r.Failure? <==> startTime >= endTime
    ensures r.Success? ==> r.value.conflictCount == |r.value.conflictingReservations|
    ensures r.Success? ==> (r.value.isAvailable <==> !RR.HasTimeConflict(db.reservations, salleId, startTime, endTime, None))
    ensures r.Success? && r.value.isAvailable ==> r.value.conflictingReservations == []
    ensures r.Success? && !r.value.isAvailable ==>
      r.value.conflictingReservations == ConflictingReservations(db.reservations, db.creneaux, salleId, startTime, endTime)
  {
    var hasConflict := CheckTimeConflict(db.reservations, salleId, startTime, endTime);
    if hasConflict.Failure? {
      return Failure(hasConflict.error);
    }
    if hasConflict.value {
      var conflicts := GetConflictingReservations(db, salleId, startTime, endTime);
      return Success(AvailabilityStatus(false, |conflicts|, conflicts));
    }
    return Success(AvailabilityStatus(true, 0, []));
  }

  /** A custom-range booking (no slot) makes the room unavailable while the conflict list,
      built from slots only, stays empty: IsAvailable = false with ConflictCount = 0. */
  lemma UnavailableWithNoListedConflict()
    ensures var row := Row(1, 0, "", "Confirmée", 1, 1, None, 0, 0, 9 * 3600, 10 * 3600);
      RR.HasTimeConflict([row], 1, 9 * 3600 + 1800, 10 * 3600 + 1800, None) &&
      ConflictingReservations([row], [], 1, 9 * 3600 + 1800, 10 * 3600 + 1800) == []
  {
    var row := Row(1, 0, "", "Confirmée", 1, 1, None, 0, 0, 9 * 3600, 10 * 3600);
    assert RR.TimeConflictRow([row][0], 1, 9 * 3600 + 1800, 10 * 3600 + 1800, None);
    NoSlotsNoConflicts(Filter(RR.GetSalleReservations([row], 1), Considered), 9 * 3600 + 1800, 10 * 3600 + 1800);
  }

  /** With no slot in the table, no reservation is ever reported. */
  lemma {:induction false} NoSlotsNoConflicts(rs: seq<Reservation>, startTime: int, endTime: int)
    ensures Conflicts(rs, [], startTime, endTime) == []
  {
    if rs != [] {
      NoSlotsNoConflicts(rs[..|rs| - 1], startTime, endTime);
    }
  }

  /** The documented edge cases, for an existing 09:00-10:00 Confirmée booking on any day:
      10:00-11:00 is free (adjacent ranges touch), while 08:30-10:30, 09:30-10:30 and
      09:15-09:45 all conflict. */
  lemma EdgeCases(day: int)
    ensures var row := Row(1, 0, "", "Confirmée", 1, 1, None, At(day, 0), At(day, 0), 9 * 3600, 10 * 3600);
      CheckTimeConflict([row], 1, At(day, 10 * 3600), At(day, 11 * 3600)) == Success(false) &&
      CheckTimeConflict([row], 1, At(day, 8 * 3600 + 1800), At(day, 10 * 3600 + 1800)) == Success(true) &&
      CheckTimeConflict([row], 1, At(day, 9 * 3600 + 1800), At(day, 10 * 3600 + 1800)) == Success(true) &&
      CheckTimeConflict([row], 1, At(day, 9 * 3600 + 900), At(day, 9 * 3600 + 2700)) == Success(true)
  {
    NineToTenConflict(day, 10 * 3600, 11 * 3600);
    NineToTenConflict(day, 8 * 3600 + 1800, 10 * 3600 + 1800);
    NineToTenConflict(day, 9 * 3600 + 1800, 10 * 3600 + 1800);
    NineToTenConflict(day, 9 * 3600 + 900, 9 * 3600 + 2700);
  }

  /** Against a booking from 09:00 to 10:00 on `day`, a range within that day conflicts
      exactly when it overlaps 09:00-10:00 as a half-open interval. */
  lemma NineToTenConflict(day: int, a: int, b: int)
    requires 0 <= a < b < SecondsPerDay
    ensures var row := Row(1, 0, "", "Confirmée", 1, 1, None, At(day, 0), At(day, 0), 9 * 3600, 10 * 3600);
      CheckTimeConflict([row], 1, At(day, a), At(day, b)) == Success(a < 10 * 3600 && 9 * 3600 < b)
  {
    var row := Row(1, 0, "", "Confirmée", 1, 1, None, At(day, 0), At(day, 0), 9 * 3600, 10 * 3600);
    JoinSplit(day, 0);
    JoinSplit(day, a);
    JoinSplit(day, b);
    RR.SameDayReduction(row, At(day, a), At(day, b));
    if a < 10 * 3600 && 9 * 3600 < b {
      assert RR.TimeConflictRow([row][0], 1, At(day, a), At(day, b), None);
    }
  }
}
