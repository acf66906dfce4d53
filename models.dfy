/**
 * The records of the reservation system: users, rooms (salles), equipment, time
 * slots (créneaux), reservations and their history, and the two read-side DTOs.
 *
 * Every `DateTime` is an instant in seconds (module Time); every `TimeSpan` is a
 * signed number of seconds; `int?` is `Option<int>`.
 */
module ReservationSystemModels {
  import opened Wrappers
  import opened Time

  datatype User = User(id: int, nom: string, email: string, role: string, dateCreation: int)

  /** A room. `kind` is the `Type` property ("Amphithéâtre", "Laboratoire", ...). */
  datatype Salle = Salle(
    id: int, nom: string, description: string, capacite: int, kind: string,
    etage: int, disponibilite: bool, dateCreation: int, equipements: seq<Equipement>)

  /** A piece of equipment installed in room `salleId`. */
  datatype Equipement = Equipement(
    id: int, nom: string, description: string, kind: string,
    estFonctionnel: bool, salleId: int, dateCreation: int)

  /** A predefined time slot. */
  datatype Creneau = Creneau(id: int, debut: int, fin: int, dateCreation: int)
  {
    /** `Duree => Fin - Debut`. */
    function Duree(): (d: int)
      ensures debut + d == fin
      ensures d > 0 <==> debut < fin
    {
      fin - debut
    }
  }

  /** The `ReservationStatut` enum. */
  datatype Statut = EnAttente | Confirmee | EnCours | Terminee | Annulee
  {
    /** `ToString()` of the enum: the member's identifier, accents included. */
    function Name(): string
    {
      match this
      case EnAttente => "EnAttente"
      case Confirmee => "Confirmée"
      case EnCours => "EnCours"
      case Terminee => "Terminée"
      case Annulee => "Annulée"
    }
  }

  /** The five names are pairwise distinct, so a stored name identifies its member. */
  lemma NameInjective(s: Statut, t: Statut)
    ensures s.Name() == t.Name() <==> s == t
  {
    if s != t {
      assert s.Name()[0] != t.Name()[0] || s.Name()[2] != t.Name()[2];
    }
  }

  /** A reservation. Its dates may carry a time of day, which the computed
      properties discard: only their `.Date` counts. */
  datatype Reservation = Reservation(
    id: int, dateReservation: int, motif: string, statut: Statut,
    userId: int, salleId: int, creneauId: Option<int>,
    dateDebut: int, dateFin: int, heureDebut: int, heureFin: int)
  {
    /** `DateDebut.Date.Add(HeureDebut)`. */
    function DateTimeDebut(): int
    {
      At(DateOf(dateDebut), heureDebut)
    }

    /** `DateFin.Date.Add(HeureFin)`. */
    function DateTimeFin(): int
    {
      At(DateOf(dateFin), heureFin)
    }

    /** `DateTimeFin - DateTimeDebut`. */
    function DureeTotal(): (d: int)
      ensures DateTimeDebut() + d == DateTimeFin()
    {
      DateTimeFin() - DateTimeDebut()
    }
  }

  /** `new Reservation { }`: every field at its default, status Confirmée. */
  function NewReservation(): (r: Reservation)
    ensures r.statut == Confirmee && r.creneauId == None
  {
    Reservation(0, 0, "", Confirmee, 0, 0, None, 0, 0, 0, 0)
  }

  /** Its start and end are both the epoch `DateTime.MinValue`, so it lasts nothing. */
  lemma NewReservationInstants()
    ensures NewReservation().DateTimeDebut() == 0 && NewReservation().DateTimeFin() == 0
    ensures NewReservation().DureeTotal() == 0
  {
    assert DateOf(0) == 0;
  }

  /** Splitting an instant into `.Date` and `.TimeOfDay` and storing them as the start
      (or end) of a reservation gives that instant back as `DateTimeDebut` (`DateTimeFin`). */
  lemma {:induction false} SplitRoundTrip(r: Reservation, start: int, end: int)
    requires r.dateDebut == At(DateOf(start), 0) && r.heureDebut == TimeOfDay(start)
    requires r.dateFin == At(DateOf(end), 0) && r.heureFin == TimeOfDay(end)
    ensures r.DateTimeDebut() == start && r.DateTimeFin() == end
    ensures r.DureeTotal() == end - start
  {
    JoinSplit(DateOf(start), 0);
    JoinSplit(DateOf(end), 0);
  }

  /** With times of day under 24 hours, the duration is the day difference plus the
      difference of the times of day; it is positive exactly when the end (date, time)
      pair comes after the start pair. */
  lemma DureeTotalByParts(r: Reservation)
    requires 0 <= r.heureDebut < SecondsPerDay && 0 <= r.heureFin < SecondsPerDay
    ensures r.DureeTotal() == (DateOf(r.dateFin) - DateOf(r.dateDebut)) * SecondsPerDay + r.heureFin - r.heureDebut
    ensures r.DureeTotal() > 0 <==>
      DateOf(r.dateDebut) < DateOf(r.dateFin) || (DateOf(r.dateDebut) == DateOf(r.dateFin) && r.heureDebut < r.heureFin)
  {
    AtOrder(DateOf(r.dateDebut), r.heureDebut, DateOf(r.dateFin), r.heureFin);
  }

  /** A row of the `v_reservations_completes` view: the status is the stored string. */
  datatype ReservationComplete = ReservationComplete(
    id: int, dateReservation: int, motif: string, statut: string,
    userId: int, userNom: string, userEmail: string,
    salleId: int, salleNom: string, capacite: int, salleType: string, etage: int,
    dateDebut: int, dateFin: int, heureDebut: int, heureFin: int)
  {
    /** `DateDebut.Date.Add(HeureDebut)`, as for `Reservation`. */
    function CreneauDebut(): int
    {
      At(DateOf(dateDebut), heureDebut)
    }

    /** `DateFin.Date.Add(HeureFin)`, as for `Reservation`. */
    function CreneauFin(): int
    {
      At(DateOf(dateFin), heureFin)
    }

    /** `(int)CreneauFin.Subtract(CreneauDebut).TotalHours`. */
    function DureeHeures(): (h: int)
      ensures CreneauDebut() <= CreneauFin() ==>
        h >= 0 && CreneauDebut() + h * SecondsPerHour <= CreneauFin() < CreneauDebut() + (h + 1) * SecondsPerHour
      ensures CreneauFin() < CreneauDebut() ==>
        h <= 0 && CreneauFin() <= CreneauDebut() + h * SecondsPerHour < CreneauFin() + SecondsPerHour
    {
      TruncatedHours(CreneauFin() - CreneauDebut())
    }

    /** False for the two terminal status strings "Annulée" and "Terminée". */
    predicate IsNotFinalStatus()
    {
      statut != "Annulée" && statut != "Terminée"
    }
  }

  /** A view row holding a reservation's dates and times has the reservation's start,
      end and duration. */
  lemma CompleteMatchesReservation(c: ReservationComplete, r: Reservation)
    requires c.dateDebut == r.dateDebut && c.dateFin == r.dateFin
    requires c.heureDebut == r.heureDebut && c.heureFin == r.heureFin
    ensures c.CreneauDebut() == r.DateTimeDebut() && c.CreneauFin() == r.DateTimeFin()
    ensures r.DureeTotal() >= 0 ==> c.DureeHeures() * SecondsPerHour <= r.DureeTotal()
  {
  }

  /** On a stored status name, `IsNotFinalStatus` holds exactly for the statuses other
      than Annulée and Terminée. */
  lemma {:induction false} IsNotFinalStatusOfName(c: ReservationComplete, s: Statut)
    requires c.statut == s.Name()
    ensures c.IsNotFinalStatus() <==> s != Annulee && s != Terminee
  {
    NameInjective(s, Annulee);
    NameInjective(s, Terminee);
  }

  /** A history entry: `action` on reservation `reservationId` at `dateAction`. */
  datatype Historique = Historique(id: int, action: string, dateAction: int, reservationId: int)

  /** A row of the `v_salles_equipements` view. */
  datatype SalleAvecEquipements = SalleAvecEquipements(
    id: int, nom: string, capacite: int, kind: string, etage: int, disponibilite: bool,
    nbEquipementsFonctionnels: int, nbEquipementsTotal: int, equipements: string)
}
