/**
 * ReservationService: the business operations on bookings (create, cancel, modify), each a
 * chain of guard checks followed by one store write and one history entry, plus the room
 * search and the room statistics.
 */
module ReservationService {
  import opened Wrappers
  import opened Text
  import opened Seqs
  import opened ReservationSystemModels
  import opened Store
  import RR = ReservationRepository
  import CR = CreneauRepository
  import SR = SalleRepository
  import UserRepository
  import HistoriqueRepository
  import StatusService = ReservationStatusService

  /** The `(Success, Message, ReservationId)` tuple of `CreateReservation`. */
  datatype CreateOutcome = CreateOutcome(success: bool, message: string, reservationId: int)

  /** The `(Success, Message)` tuple of `CancelReservation` and `ModifyReservation`. */
  datatype Outcome = Outcome(success: bool, message: string)

  const UserNotFound: string := "Utilisateur non trouvé"
  const SalleNotFound: string := "Salle non trouvée"
  const SalleUnavailable: string := "La salle n'est pas disponible"
  const CreneauNotFound: string := "Créneau non trouvé"
  const AlreadyBooked: string := "Cette salle est déjà réservée pour ce créneau"
  const ReservationNotFound: string := "Réservation non trouvée"

  // ----- CreateReservation -----

  /** The first failing guard of `CreateReservation`, in the source's order, or `None`. */
  function CreateCheck(db: Database, userId: int, salleId: int, creneauId: int): (r: Option<string>)
    reads db
    ensures r == Some(UserNotFound) <==> !HasId(db.users, (u: User) => u.id, userId)
    ensures r == Some(SalleNotFound) <==>
      HasId(db.users, (u: User) => u.id, userId) && !HasId(db.salles, (s: Salle) => s.id, salleId)
    ensures r == Some(SalleUnavailable) <==>
      HasId(db.users, (u: User) => u.id, userId) && HasId(db.salles, (s: Salle) => s.id, salleId) &&
      !SR.GetSalleById(db.salles, db.equipements, salleId).value.disponibilite
    ensures r == Some(CreneauNotFound) <==>
      HasId(db.users, (u: User) => u.id, userId) && HasId(db.salles, (s: Salle) => s.id, salleId) &&
      SR.GetSalleById(db.salles, db.equipements, salleId).value.disponibilite &&
      !HasId(db.creneaux, (c: Creneau) => c.id, creneauId)
    ensures r == Some(AlreadyBooked) <==>
      HasId(db.users, (u: User) => u.id, userId) && HasId(db.salles, (s: Salle) => s.id, salleId) &&
      SR.GetSalleById(db.salles, db.equipements, salleId).value.disponibilite &&
      HasId(db.creneaux, (c: Creneau) => c.id, creneauId) &&
      RR.HasConflict(db.reservations, salleId, creneauId, None)
    ensures r.None? <==>
      HasId(db.users, (u: User) => u.id, userId) && HasId(db.salles, (s: Salle) => s.id, salleId) &&
      SR.GetSalleById(db.salles, db.equipements, salleId).value.disponibilite &&
      HasId(db.creneaux, (c: Creneau) => c.id, creneauId) &&
      !RR.HasConflict(db.reservations, salleId, creneauId, None)
    ensures r.Some? ==> r.value in {UserNotFound, SalleNotFound, SalleUnavailable, CreneauNotFound, AlreadyBooked}
  {
    var user := UserRepository.GetUserById(db.users, userId);
    if user.None? then Some(UserNotFound)
    else
      var salle := SR.GetSalleById(db.salles, db.equipements, salleId);
      if salle.None? then Some(SalleNotFound)
      else if !salle.value.disponibilite then Some(SalleUnavailable)
      else if CR.GetCreneauById(db.creneaux, creneauId).None? then Some(CreneauNotFound)
      else if RR.HasConflict(db.reservations, salleId, creneauId, None) then Some(AlreadyBooked)
      else None
  }

  /** The reservation `CreateReservation` builds: Confirmée, on the given slot, every other
      field at its default. */
  function Booking(userId: int, salleId: int, creneauId: int, motif: string, now: int): (r: Reservation)
    ensures r.statut == Confirmee && r.userId == userId && r.salleId == salleId &&
            r.creneauId == Some(creneauId) && r.motif == motif && r.dateReservation == now
  {
    NewReservation().(dateReservation := now, motif := motif, userId := userId, salleId := salleId,
                      creneauId := Some(creneauId))
  }

  /** `CreateReservation` (the current time is a parameter). */
  method CreateReservation(db: Database, userId: int, salleId: int, creneauId: int, motif: string, now: int)
    returns (outcome: CreateOutcome)
    modifies db`reservations, db`historique
    ensures var check := old(CreateCheck(db, userId, salleId, creneauId));
      check.Some? ==>
        outcome == CreateOutcome(false, check.value, 0) &&
        db.reservations == old(db.reservations) && db.historique == old(db.historique)
    ensures var check := old(CreateCheck(db, userId, salleId, creneauId));
      check.None? ==>
        var id := NextId(old(db.reservations), (x: Row) => x.id);
        outcome == CreateOutcome(true, "Réservation créée avec succès", id) &&
        db.reservations == old(db.reservations) + [RR.ToRow(Booking(userId, salleId, creneauId, motif, now)).(id := id)] &&
        db.historique == old(db.historique) +
          [Historique(NextId(old(db.historique), (h: Historique) => h.id), "Réservation créée et confirmée", now, id)]
  {
    var user := UserRepository.GetUserById(db.users, userId);
    if user.None? {
      return CreateOutcome(false, UserNotFound, 0);
    }
    var salle := SR.GetSalleById(db.salles, db.equipements, salleId);
    if salle.None? {
      return CreateOutcome(false, SalleNotFound, 0);
    }
    if !salle.value.disponibilite {
      return CreateOutcome(false, SalleUnavailable, 0);
    }
    var creneau := CR.GetCreneauById(db.creneaux, creneauId);
    if creneau.None? {
      return CreateOutcome(false, CreneauNotFound, 0);
    }
    if RR.HasConflict(db.reservations, salleId, creneauId, None) {
      return CreateOutcome(false, AlreadyBooked, 0);
    }
    var reservation := NewReservation().(dateReservation := now, motif := motif, userId := userId,
                                         salleId := salleId, creneauId := Some(creneauId));
    var reservationId := RR.CreateReservation(db, reservation);
    var _ := HistoriqueRepository.AddAction(db, reservationId, "Réservation créée et confirmée", now);
    return CreateOutcome(true, "Réservation créée avec succès", reservationId);
  }

  // ----- the no-double-booking invariant -----

  /** Two rows holding the same slot of the same room, both with a blocking status. */
  predicate SameSlotBlocking(a: Row, b: Row)
  {
    a.salleId == b.salleId && a.creneauId.Some? && a.creneauId == b.creneauId &&
    RR.BlocksSlot(a.statut) && RR.BlocksSlot(b.statut)
  }

  /** No slot of a room is held twice by blocking rows. */
  predicate NoDoubleBooking(rows: seq<Row>)
  {
    forall i, j :: 0 <= i < |rows| && 0 <= j < |rows| && i != j ==> !SameSlotBlocking(rows[i], rows[j])
  }

  /** A booking that passed the slot check keeps the invariant. */
  lemma CreateKeepsNoDoubleBooking(rows: seq<Row>, userId: int, salleId: int, creneauId: int, motif: string, now: int, id: int)
    requires NoDoubleBooking(rows)
    requires !RR.HasConflict(rows, salleId, creneauId, None)
    ensures NoDoubleBooking(rows + [RR.ToRow(Booking(userId, salleId, creneauId, motif, now)).(id := id)])
  {
    var row := RR.ToRow(Booking(userId, salleId, creneauId, motif, now)).(id := id);
    var rs := rows + [row];
    forall i, j | 0 <= i < |rs| && 0 <= j < |rs| && i != j ensures !SameSlotBlocking(rs[i], rs[j]) {
      if i == |rows| {
        assert !RR.ConflictRow(rows[j], salleId, creneauId, None);
      } else if j == |rows| {
        assert !RR.ConflictRow(rows[i], salleId, creneauId, None);
      }
    }
  }

  /** Writing a non-blocking status (Annulée by a cancellation, EnCours or Terminée by the
      status pass) keeps the invariant. */
  lemma NonBlockingStatusKeepsNoDoubleBooking(rows: seq<Row>, id: int, statut: string)
    requires NoDoubleBooking(rows)
    requires !RR.BlocksSlot(statut)
    ensures NoDoubleBooking(RR.SetStatut(rows, id, statut))
  {
    var rs := RR.SetStatut(rows, id, statut);
    forall i, j | 0 <= i < |rs| && 0 <= j < |rs| && i != j ensures !SameSlotBlocking(rs[i], rs[j]) {
      assert !SameSlotBlocking(rows[i], rows[j]);
    }
  }

  /** The status pass only ever writes EnCours or Terminée, neither of which blocks, so it
      keeps the invariant. */
  lemma StatusPassKeepsNoDoubleBooking(rows: seq<Row>, now: int)
    requires NoDoubleBooking(rows)
    ensures NoDoubleBooking(StatusService.StatusPass(rows, now))
  {
    var rs := StatusService.StatusPass(rows, now);
    RR.BlocksSlotOfName(EnCours);
    RR.BlocksSlotOfName(Terminee);
    forall i, j | 0 <= i < |rs| && 0 <= j < |rs| && i != j ensures !SameSlotBlocking(rs[i], rs[j]) {
      assert !SameSlotBlocking(rows[i], rows[j]);
      assert RR.BlocksSlot(rs[i].statut) ==> rs[i] == rows[i];
      assert RR.BlocksSlot(rs[j].statut) ==> rs[j] == rows[j];
    }
  }

  // ----- CancelReservation -----

  /** The first failing guard of `CancelReservation`, or `None`. */
  function CancelCheck(rows: seq<Row>, reservationId: int): (r: Option<string>)
    ensures r == Some(ReservationNotFound) <==> !HasId(rows, (x: Row) => x.id, reservationId)
    ensures r.None? <==>
      HasId(rows, (x: Row) => x.id, reservationId) &&
      RR.GetReservationById(rows, reservationId).value.statut !in {Annulee, Terminee}
  {
    match RR.GetReservationById(rows, reservationId)
    case None => Some(ReservationNotFound)
    case Some(reservation) =>
      if reservation.statut == Annulee then Some("Cette réservation est déjà annulée")
      else if reservation.statut == Terminee then Some("Impossible d'annuler une réservation terminée")
      else None
  }

  /** `CancelReservation` (the current time is a parameter). */
  method CancelReservation(db: Database, reservationId: int, now: int) returns (outcome: Outcome)
    modifies db`reservations, db`historique
    ensures var check := old(CancelCheck(db.reservations, reservationId));
      check.Some? ==>
        outcome == Outcome(false, check.value) &&
        db.reservations == old(db.reservations) && db.historique == old(db.historique)
    ensures var check := old(CancelCheck(db.reservations, reservationId));
      check.None? ==>
        outcome == Outcome(true, "Réservation annulée avec succès") &&
        db.reservations == RR.SetStatut(old(db.reservations), reservationId, "Annulée") &&
        db.historique == old(db.historique) +
          [Historique(NextId(old(db.historique), (h: Historique) => h.id), "Réservation annulée", now, reservationId)]
  {
    var reservation := RR.GetReservationById(db.reservations, reservationId);
    if reservation.None? {
      return Outcome(false, ReservationNotFound);
    }
    if reservation.value.statut == Annulee {
      return Outcome(false, "Cette réservation est déjà annulée");
    }
    if reservation.value.statut == Terminee {
      return Outcome(false, "Impossible d'annuler une réservation terminée");
    }
    var ok := RR.CancelReservation(db, reservationId);
    if ok {
      var _ := HistoriqueRepository.AddAction(db, reservationId, "Réservation annulée", now);
    }
    outcome := if ok then Outcome(true, "Réservation annulée avec succès")
               else Outcome(false, "Erreur lors de l'annulation de la réservation");
  }

  // ----- ModifyReservation -----

  /** The reservation with the change applied: an unspecified room or slot keeps its old
      value, and the motif changes only for a non-empty new one. */
  function Modified(r: Reservation, newSalleId: Option<int>, newCreneauId: Option<int>, newMotif: Option<string>): (m: Reservation)
    ensures m.(salleId := r.salleId, creneauId := r.creneauId, motif := r.motif) == r
    ensures m.salleId == (if newSalleId.Some? then newSalleId.value else r.salleId)
    ensures m.creneauId == (if newCreneauId.Some? then newCreneauId else r.creneauId)
    ensures m.motif == (if newMotif.Some? && newMotif.value != "" then newMotif.value else r.motif)
  {
    var salleId := match newSalleId case Some(s) => s case None => r.salleId;
    var creneauId := match newCreneauId case Some(c) => Some(c) case None => r.creneauId;
    r.(salleId := salleId, creneauId := creneauId,
       motif := match newMotif case Some(m) => (if !IsNullOrEmpty(m) then m else r.motif) case None => r.motif)
  }

  /** The first failing guard of `ModifyReservation`, or `None`. The conflict check runs
      only when a room or a slot is supplied; a reservation left without a slot has none. */
  function ModifyCheck(rows: seq<Row>, reservationId: int, newSalleId: Option<int>, newCreneauId: Option<int>): (r: Option<string>)
    ensures r == Some(ReservationNotFound) <==> !HasId(rows, (x: Row) => x.id, reservationId)
    ensures r.None? <==>
      HasId(rows, (x: Row) => x.id, reservationId) &&
      var m := Modified(RR.GetReservationById(rows, reservationId).value, newSalleId, newCreneauId, None);
      m.statut !in {Annulee, Terminee} &&
      ((newSalleId.Some? || newCreneauId.Some?) && m.creneauId.Some? ==>
        !RR.HasConflict(rows, m.salleId, m.creneauId.value, Some(reservationId)))
  {
    match RR.GetReservationById(rows, reservationId)
    case None => Some(ReservationNotFound)
    case Some(reservation) =>
      if reservation.statut == Annulee then Some("Impossible de modifier une réservation annulée")
      else if reservation.statut == Terminee then Some("Impossible de modifier une réservation terminée")
      else
        var m := Modified(reservation, newSalleId, newCreneauId, None);
        if (newSalleId.Some? || newCreneauId.Some?) && m.creneauId.Some? &&
           RR.HasConflict(rows, m.salleId, m.creneauId.value, Some(reservationId))
        then Some(AlreadyBooked)
        else None
  }

  /** `ModifyReservation` (the current time is a parameter). */
  method ModifyReservation(db: Database, reservationId: int, newSalleId: Option<int>, newCreneauId: Option<int>,
                           newMotif: Option<string>, now: int) returns (outcome: Outcome)
    modifies db`reservations, db`historique
    ensures var check := old(ModifyCheck(db.reservations, reservationId, newSalleId, newCreneauId));
      check.Some? ==>
        outcome == Outcome(false, check.value) &&
        db.reservations == old(db.reservations) && db.historique == old(db.historique)
    ensures var check := old(ModifyCheck(db.reservations, reservationId, newSalleId, newCreneauId));
      check.None? ==>
        outcome == Outcome(true, "Réservation modifiée avec succès") &&
        db.reservations == RR.UpdateRows(old(db.reservations),
          Modified(old(RR.GetReservationById(db.reservations, reservationId)).value, newSalleId, newCreneauId, newMotif)) &&
        db.historique == old(db.historique) +
          [Historique(NextId(old(db.historique), (h: Historique) => h.id), "Réservation modifiée", now, reservationId)]
  {
    var found := RR.GetReservationById(db.reservations, reservationId);
    ghost var check := ModifyCheck(db.reservations, reservationId, newSalleId, newCreneauId);
    if found.None? {
      assert check == Some(ReservationNotFound);
      return Outcome(false, ReservationNotFound);
    }
    var reservation := found.value;
    if reservation.statut == Annulee {
      return Outcome(false, "Impossible de modifier une réservation annulée");
    }
    if reservation.statut == Terminee {
      return Outcome(false, "Impossible de modifier une réservation terminée");
    }
    var salleId := if newSalleId.Some? then newSalleId.value else reservation.salleId;
    var creneauId := if newCreneauId.Some? then newCreneauId else reservation.creneauId;
    if (newSalleId.Some? || newCreneauId.Some?) && creneauId.Some? &&
       RR.HasConflict(db.reservations, salleId, creneauId.value, Some(reservationId)) {
      return Outcome(false, AlreadyBooked);
    }
    reservation := reservation.(salleId := salleId, creneauId := creneauId);
    if newMotif.Some? && !IsNullOrEmpty(newMotif.value) {
      reservation := reservation.(motif := newMotif.value);
    }
    assert reservation == Modified(found.value, newSalleId, newCreneauId, newMotif);
    outcome := StoreModified(db, reservation, reservationId, now);
  }

  /** The last step of `ModifyReservation`: the reservation is written back and, when a
      row was there to update, the change is logged against `reservationId`. */
  method StoreModified(db: Database, reservation: Reservation, reservationId: int, now: int) returns (outcome: Outcome)
    modifies db`reservations, db`historique
    ensures var ok := HasId(old(db.reservations), (x: Row) => x.id, reservation.id);
      outcome == (if ok then Outcome(true, "Réservation modifiée avec succès")
                  else Outcome(false, "Erreur lors de la modification de la réservation")) &&
      db.reservations == RR.UpdateRows(old(db.reservations), reservation) &&
      db.historique == if ok then old(db.historique) +
          [Historique(NextId(old(db.historique), (h: Historique) => h.id), "Réservation modifiée", now, reservationId)]
        else old(db.historique)
  {
    var ok := RR.UpdateReservation(db, reservation);
    if ok {
      var _ := HistoriqueRepository.AddAction(db, reservationId, "Réservation modifiée", now);
    }
    outcome := if ok then Outcome(true, "Réservation modifiée avec succès")
               else Outcome(false, "Erreur lors de la modification de la réservation");
  }

  /** A room or slot change that passed the check keeps the invariant on a table with
      unique ids, for a reservation that was blocking when read. */
  lemma ModifyKeepsNoDoubleBooking(rows: seq<Row>, r: Reservation)
    requires NoDoubleBooking(rows) && UniqueIds(rows, (x: Row) => x.id)
    requires r.creneauId.Some? ==> !RR.HasConflict(rows, r.salleId, r.creneauId.value, Some(r.id))
    ensures NoDoubleBooking(RR.UpdateRows(rows, r))
  {
    var rs := RR.UpdateRows(rows, r);
    forall i, j | 0 <= i < |rs| && 0 <= j < |rs| && i != j ensures !SameSlotBlocking(rs[i], rs[j]) {
      if rows[i].id == r.id {
        assert rows[j].id != r.id;
        assert r.creneauId.None? || !RR.BlocksSlot(rs[i].statut) ||
               !RR.ConflictRow(rows[j], r.salleId, r.creneauId.value, Some(r.id));
      } else if rows[j].id == r.id {
        assert r.creneauId.None? || !RR.BlocksSlot(rs[j].statut) ||
               !RR.ConflictRow(rows[i], r.salleId, r.creneauId.value, Some(r.id));
      } else {
        assert !SameSlotBlocking(rows[i], rows[j]);
      }
    }
  }

  /** A motif-only change skips the conflict check and writes the status it read: a row
      stored as "EnCours" (read as EnAttente) comes back as "EnAttente", which blocks, so two
      blocking rows can then hold the same slot. */
  lemma MotifOnlyModifyBreaksNoDoubleBooking()
    ensures var inProgress := Row(1, 0, "", "EnCours", 1, 1, Some(5), 0, 0, 0, 0);
      var other := Row(2, 0, "", "Confirmée", 2, 1, Some(5), 0, 0, 0, 0);
      var rows := [inProgress, other];
      NoDoubleBooking(rows) &&
      ModifyCheck(rows, 1, None, None).None? &&
      !NoDoubleBooking(RR.UpdateRows(rows, Modified(RR.GetReservationById(rows, 1).value, None, None, Some("x"))))
  {
    var inProgress := Row(1, 0, "", "EnCours", 1, 1, Some(5), 0, 0, 0, 0);
    var other := Row(2, 0, "", "Confirmée", 2, 1, Some(5), 0, 0, 0, 0);
    var rows := [inProgress, other];
    assert RR.GetReservationById(rows, 1) == Some(RR.FromRow(inProgress));
    var rs := RR.UpdateRows(rows, Modified(RR.GetReservationById(rows, 1).value, None, None, Some("x")));
    assert SameSlotBlocking(rs[0], rs[1]);
  }

  // ----- FindAvailableRooms -----

  /** `availableSalles.Any(a => a.Id == id)`. */
  predicate Listed(available: seq<Salle>, id: int)
  {
    exists i :: 0 <= i < |available| && available[i].id == id
  }

  /** `.OrderBy(s => s.Etage).ThenBy(s => s.Capacite)`. */
  function ByEtageCapacite(s: SalleAvecEquipements): seq<int>
  {
    [s.etage, s.capacite]
  }

  /** `FindAvailableRooms`: the rows of the room-with-equipment view (a parameter, see the
      README) whose room is available for the period and large enough. */
  function FindAvailableRooms(db: Database, withEquipments: seq<SalleAvecEquipements>, debut: int, fin: int, minCapacity: int)
    : seq<SalleAvecEquipements>
    reads db
  {
    var availableSalles := SR.GetAvailableSallesForPeriod(db.salles, db.equipements, db.reservations, db.creneaux, debut, fin);
    SortByKey(Filter(withEquipments, (s: SalleAvecEquipements) => Listed(availableSalles, s.id) && s.capacite >= minCapacity),
              ByEtageCapacite)
  }

  /** Some stored room with this id is marked available and has no blocking slot booking
      overlapping the period. */
  predicate FreeRoom(db: Database, id: int, debut: int, fin: int)
    reads db
  {
    exists k :: 0 <= k < |db.salles| && db.salles[k].id == id && db.salles[k].disponibilite &&
      !SR.BookedDuring(db.reservations, db.creneaux, id, debut, fin)
  }

  /** Exactly the view rows of an available room with enough capacity are returned. */
  lemma FindAvailableRoomsMembers(db: Database, withEquipments: seq<SalleAvecEquipements>, debut: int, fin: int, minCapacity: int)
    ensures var availableSalles := SR.GetAvailableSallesForPeriod(db.salles, db.equipements, db.reservations, db.creneaux, debut, fin);
      forall s :: s in FindAvailableRooms(db, withEquipments, debut, fin, minCapacity) <==>
        s in withEquipments && Listed(availableSalles, s.id) && s.capacite >= minCapacity
  {
    var availableSalles := SR.GetAvailableSallesForPeriod(db.salles, db.equipements, db.reservations, db.creneaux, debut, fin);
    var p := (s: SalleAvecEquipements) => Listed(availableSalles, s.id) && s.capacite >= minCapacity;
    FilterThenSort(withEquipments, p, ByEtageCapacite);
  }

  /** They come ordered by floor, then by capacity. */
  lemma FindAvailableRoomsOrdered(db: Database, withEquipments: seq<SalleAvecEquipements>, debut: int, fin: int, minCapacity: int)
    ensures var r := FindAvailableRooms(db, withEquipments, debut, fin, minCapacity);
      forall i, j :: 0 <= i < j < |r| ==>
        r[i].etage < r[j].etage || (r[i].etage == r[j].etage && r[i].capacite <= r[j].capacite)
  {
    var availableSalles := SR.GetAvailableSallesForPeriod(db.salles, db.equipements, db.reservations, db.creneaux, debut, fin);
    var p := (s: SalleAvecEquipements) => Listed(availableSalles, s.id) && s.capacite >= minCapacity;
    SortSorted(Filter(withEquipments, p), ByEtageCapacite);
    var r := FindAvailableRooms(db, withEquipments, debut, fin, minCapacity);
    forall i, j | 0 <= i < j < |r| ensures r[i].etage < r[j].etage || (r[i].etage == r[j].etage && r[i].capacite <= r[j].capacite) {
      LexLePair(r[i].etage, r[i].capacite, r[j].etage, r[j].capacite);
    }
  }

  /** Each returned room is marked available and free of blocking slot bookings for the period. */
  lemma FindAvailableRoomsFree(db: Database, withEquipments: seq<SalleAvecEquipements>, debut: int, fin: int, minCapacity: int)
    ensures forall s :: s in FindAvailableRooms(db, withEquipments, debut, fin, minCapacity) ==> FreeRoom(db, s.id, debut, fin)
  {
    var availableSalles := SR.GetAvailableSallesForPeriod(db.salles, db.equipements, db.reservations, db.creneaux, debut, fin);
    FindAvailableRoomsMembers(db, withEquipments, debut, fin, minCapacity);
    forall s | s in FindAvailableRooms(db, withEquipments, debut, fin, minCapacity) ensures FreeRoom(db, s.id, debut, fin) {
      var i :| 0 <= i < |availableSalles| && availableSalles[i].id == s.id;
      ListedRoomIsFree(db, debut, fin, i);
    }
  }

  /** A room listed for the period is a stored room that is free for it. */
  lemma ListedRoomIsFree(db: Database, debut: int, fin: int, i: int)
    requires 0 <= i < |SR.GetAvailableSallesForPeriod(db.salles, db.equipements, db.reservations, db.creneaux, debut, fin)|
    ensures FreeRoom(db, SR.GetAvailableSallesForPeriod(db.salles, db.equipements, db.reservations, db.creneaux, debut, fin)[i].id, debut, fin)
  {
    var ss, eqs, rows, cs := db.salles, db.equipements, db.reservations, db.creneaux;
    var k := ListedRoomStored(ss, eqs, rows, cs, debut, fin, i);
  }

  /** The stored room a listed room was loaded from. */
  lemma ListedRoomStored(ss: seq<Salle>, eqs: seq<Equipement>, rows: seq<Row>, cs: seq<Creneau>, debut: int, fin: int, i: int)
      returns (k: int)
    requires 0 <= i < |SR.GetAvailableSallesForPeriod(ss, eqs, rows, cs, debut, fin)|
    ensures 0 <= k < |ss| && ss[k].id == SR.GetAvailableSallesForPeriod(ss, eqs, rows, cs, debut, fin)[i].id
    ensures ss[k].disponibilite && !SR.BookedDuring(rows, cs, ss[k].id, debut, fin)
  {
    var p := (s: Salle) => s.disponibilite && !SR.BookedDuring(rows, cs, s.id, debut, fin);
    SR.QueryMembers(ss, eqs, p, SR.ByEtageNom);
    var x := SR.GetAvailableSallesForPeriod(ss, eqs, rows, cs, debut, fin)[i];
    assert SR.LoadedFrom(x, ss, eqs, p);
    k :| 0 <= k < |ss| && p(ss[k]) && x == SR.Load(ss[k], eqs);
  }

  // ----- GetRoomStatistics -----

  /** `(TotalReservations, Confirmed, OccupancyRate)`; the rate is the exact quotient that the
      program's `decimal` division rounds. */
  datatype RoomStatistics = RoomStatistics(totalReservations: int, confirmed: int, occupancyRate: real)

  function GetRoomStatistics(rows: seq<Row>, salleId: int): (r: RoomStatistics)
    ensures r.totalReservations == |RR.GetSalleReservations(rows, salleId)|
    ensures r.confirmed == |Filter(RR.GetSalleReservations(rows, salleId), (x: Reservation) => x.statut == Confirmee)|
    ensures 0 <= r.confirmed <= r.totalReservations
    ensures r.occupancyRate == Rate(r.confirmed, r.totalReservations)
  {
    var reservations := RR.GetSalleReservations(rows, salleId);
    var total := |reservations|;
    var confirmed := Count(reservations, (x: Reservation) => x.statut == Confirmee);
    RoomStatistics(total, confirmed, Rate(confirmed, total))
  }

  /** `total > 0 ? (confirmed / (decimal)total) * 100 : 0`: the share in percent, 0 for no
      reservations, between 0 and 100. */
  function Rate(confirmed: nat, total: nat): (rate: real)
    requires confirmed <= total
    ensures total == 0 ==> rate == 0.0
    ensures total > 0 ==> rate * total as real == confirmed as real * 100.0
    ensures 0.0 <= rate <= 100.0
  {
    if total > 0 then
      Percentage(confirmed as real, total as real);
      (confirmed as real / total as real) * 100.0
    else 0.0
  }

  lemma Percentage(c: real, t: real)
    requires 0.0 <= c <= t && t > 0.0
    ensures 0.0 <= (c / t) * 100.0 <= 100.0
    ensures (c / t) * 100.0 * t == c * 100.0
  {
    var q := c / t;
    assert q * t == c;
  }
}
