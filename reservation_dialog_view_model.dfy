/**
 * ReservationDialogViewModel: the booking dialog of a room. It lists the room's free
 * predefined slots by date, or takes a custom start and end, decides when the
 * "create" button is enabled, and inserts the Confirmée reservation.
 */
module ReservationDialogViewModel {
  import opened Wrappers
  import opened Text
  import opened Time
  import opened Seqs
  import opened ReservationSystemModels
  import opened Store
  import RR = ReservationRepository
  import CR = CreneauRepository
  import UserRepository

  /** The custom times the dialog starts with: 09:00 to 10:00. */
  const DefaultStartTime: int := 9 * SecondsPerHour
  const DefaultEndTime: int := 10 * SecondsPerHour

  /** The number of days offered from today on. */
  const OfferedDays: nat := 365

  /** The id of the user every booking is made for. */
  const CurrentUserId: int := 1

  /** What a run of the create command shows: a silent return (only a debug line), one of
      the three message boxes that stop it, or the success box for the new id. */
  datatype DialogOutcome =
    | Silent
    | InvalidRange
    | EndDateBeforeStart
    | TimeConflict
    | SlotConflict
    | Created(id: int)

  /** `UpdateCanCreateReservation`'s rule. Dates are `DateTime`s and are compared whole;
      times are `TimeSpan`s. */
  function CanCreate(hasSalle: bool, motif: string, conflictWarning: bool, useCustomTime: bool,
                     startDate: int, endDate: int, startTime: int, endTime: int, hasCreneau: bool): (b: bool)
    ensures b ==> hasSalle && !IsNullOrWhiteSpace(motif) && !conflictWarning
  {
    var hasRequiredData := hasSalle && !IsNullOrWhiteSpace(motif) && !conflictWarning;
    if useCustomTime then
      hasRequiredData && endDate >= startDate && (endDate > startDate || endTime > startTime)
    else
      hasRequiredData && hasCreneau
  }

  /** With dates at midnight (as the date pickers give them) and times of day under 24
      hours, the custom-mode rule is: the common requirements, and the joined start
      strictly before the joined end. */
  lemma CustomCanCreateIffRange(hasSalle: bool, motif: string, conflictWarning: bool,
                                startDate: int, endDate: int, startTime: int, endTime: int, hasCreneau: bool)
    requires startDate == At(DateOf(startDate), 0) && endDate == At(DateOf(endDate), 0)
    requires 0 <= startTime < SecondsPerDay && 0 <= endTime < SecondsPerDay
    ensures CanCreate(hasSalle, motif, conflictWarning, true, startDate, endDate, startTime, endTime, hasCreneau) <==>
      hasSalle && !IsNullOrWhiteSpace(motif) && !conflictWarning &&
      At(DateOf(startDate), startTime) < At(DateOf(endDate), endTime)
  {
    AtOrder(DateOf(startDate), startTime, DateOf(endDate), endTime);
  }

  /** Under the same conditions, a custom range that passes the command's first check
      (start before end) always passes its second (end date not before start date). */
  lemma EndDateCheckRedundant(startDate: int, endDate: int, startTime: int, endTime: int)
    requires startDate == At(DateOf(startDate), 0) && endDate == At(DateOf(endDate), 0)
    requires 0 <= startTime < SecondsPerDay && 0 <= endTime < SecondsPerDay
    requires At(DateOf(startDate), startTime) < At(DateOf(endDate), endTime)
    ensures endDate >= startDate
  {
    AtOrder(DateOf(startDate), startTime, DateOf(endDate), endTime);
  }

  /** The reservation the command builds from a start and an end: each is split into its
      `.Date` and its `.TimeOfDay`. */
  function DialogReservation(now: int, motif: string, userId: int, salleId: int,
                             creneauId: Option<int>, start: int, end: int): (r: Reservation)
    ensures r.statut == Confirmee && r.creneauId == creneauId && r.motif == motif
    ensures r.userId == userId && r.salleId == salleId && r.dateReservation == now
  {
    Reservation(0, now, motif, Confirmee, userId, salleId, creneauId,
                At(DateOf(start), 0), At(DateOf(end), 0), TimeOfDay(start), TimeOfDay(end))
  }

  /** The split is undone by the model's computed instants, and the row the repository
      stores reads back as the same reservation: the booking covers exactly the requested
      start and end. */
  lemma DialogReservationStored(now: int, motif: string, userId: int, salleId: int,
                                creneauId: Option<int>, start: int, end: int, id: int)
    ensures var r := DialogReservation(now, motif, userId, salleId, creneauId, start, end);
      r.DateTimeDebut() == start && r.DateTimeFin() == end &&
      RR.FromRow(RR.ToRow(r).(id := id)) == r.(id := id)
  {
    var r := DialogReservation(now, motif, userId, salleId, creneauId, start, end);
    SplitJoin(start);
    SplitJoin(end);
    SplitRoundTrip(r, start, end);
    RR.RowRoundTrip(r);
  }

  /** The slot ids referenced by the room's reservations, whatever their status. */
  function BookedIds(rows: seq<Row>, salleId: int): set<int>
  {
    set r | r in RR.GetSalleReservations(rows, salleId) && r.creneauId.Some? :: r.creneauId.value
  }

  /** A slot id is booked exactly when some row of the room references it. */
  lemma BookedIdsMembers(rows: seq<Row>, salleId: int, id: int)
    ensures id in BookedIds(rows, salleId) <==>
      exists i :: 0 <= i < |rows| && rows[i].salleId == salleId && rows[i].creneauId == Some(id)
  {
    RR.GetSalleReservationsMembers(rows, salleId);
    if id in BookedIds(rows, salleId) {
      var r :| r in RR.GetSalleReservations(rows, salleId) && r.creneauId == Some(id);
      var row :| row in rows && row.salleId == salleId && r == RR.FromRow(row);
      var i :| 0 <= i < |rows| && rows[i] == row;
    }
    if exists i :: 0 <= i < |rows| && rows[i].salleId == salleId && rows[i].creneauId == Some(id) {
      var i :| 0 <= i < |rows| && rows[i].salleId == salleId && rows[i].creneauId == Some(id);
      assert RR.FromRow(rows[i]) in RR.GetSalleReservations(rows, salleId);
    }
  }

  /** `ORDER BY debut` of the slots that `LoadCreneaux` keeps. */
  function LoadedSlots(cs: seq<Creneau>, rows: seq<Row>, salleId: int): seq<Creneau>
  {
    var booked := BookedIds(rows, salleId);
    SortByKey(Filter(CR.GetAllCreneaux(cs), (c: Creneau) => c.id !in booked), CR.ByDebut)
  }

  /** The loaded slots are the catalogue's slots not referenced by any reservation of the
      room, ordered by start. */
  lemma LoadedSlotsSpec(cs: seq<Creneau>, rows: seq<Row>, salleId: int)
    ensures CR.OrderedByDebut(LoadedSlots(cs, rows, salleId))
    ensures forall c :: c in LoadedSlots(cs, rows, salleId) <==> c in cs && c.id !in BookedIds(rows, salleId)
  {
    LoadedSlotsOrdered(cs, rows, salleId);
    LoadedSlotsMembers(cs, rows, salleId);
  }

  /** The loaded slots are ordered by start. */
  lemma LoadedSlotsOrdered(cs: seq<Creneau>, rows: seq<Row>, salleId: int)
    ensures CR.OrderedByDebut(LoadedSlots(cs, rows, salleId))
  {
    var booked := BookedIds(rows, salleId);
    FilterThenSort(CR.GetAllCreneaux(cs), (c: Creneau) => c.id !in booked, CR.ByDebut);
    CR.SortedByDebut(LoadedSlots(cs, rows, salleId));
  }

  /** A slot is loaded exactly when it is in the catalogue and no reservation of the room
      references it. */
  lemma LoadedSlotsMembers(cs: seq<Creneau>, rows: seq<Row>, salleId: int)
    ensures forall c :: c in LoadedSlots(cs, rows, salleId) <==> c in cs && c.id !in BookedIds(rows, salleId)
  {
    var booked := BookedIds(rows, salleId);
    var all := CR.GetAllCreneaux(cs);
    FilterThenSort(all, (c: Creneau) => c.id !in booked, CR.ByDebut);
    forall c ensures c in all <==> c in cs {
      assert c in all <==> c in multiset(all);
    }
  }

  /** A slot referenced by any reservation of the room is not loaded. */
  lemma BookedSlotHidden(cs: seq<Creneau>, rows: seq<Row>, salleId: int, c: Creneau, i: int)
    requires 0 <= i < |rows| && rows[i].salleId == salleId && rows[i].creneauId == Some(c.id)
    ensures c !in LoadedSlots(cs, rows, salleId)
  {
    BookedIdsMembers(rows, salleId, c.id);
    LoadedSlotsSpec(cs, rows, salleId);
  }

  /** A slot whose only reference is a cancelled row is not taken for the free-slot query. */
  lemma CancelledRowFrees(rows: seq<Row>, salleId: int, id: int, i: int)
    requires 0 <= i < |rows| && rows[i].creneauId == Some(id) && rows[i].statut == Annulee.Name()
    requires forall j :: 0 <= j < |rows| && j != i ==> rows[j].creneauId != Some(id)
    ensures !CR.SlotTaken(rows, salleId, id)
  {
    forall j | 0 <= j < |rows| && rows[j].creneauId == Some(id) ensures !CR.HoldsSlot(rows[j].statut) {
      assert j == i;
    }
  }

  /** A slot whose only booking in the room is cancelled stays hidden from the dialog,
      while the repository's own free-slot query lists it. */
  lemma CancelledBookingHidesSlot(cs: seq<Creneau>, rows: seq<Row>, salleId: int, c: Creneau, i: int)
    requires c in cs && 0 <= i < |rows|
    requires rows[i].salleId == salleId && rows[i].creneauId == Some(c.id) && rows[i].statut == Annulee.Name()
    requires forall j :: 0 <= j < |rows| && j != i ==> rows[j].creneauId != Some(c.id)
    ensures c !in LoadedSlots(cs, rows, salleId)
    ensures c in CR.GetAvailableCreneauxForSalle(cs, rows, salleId)
  {
    BookedSlotHidden(cs, rows, salleId, c, i);
    CancelledRowFrees(rows, salleId, c.id, i);
  }

  /** `FilterCreneauxByDate`'s list. */
  function SlotsOn(cs: seq<Creneau>, date: int): seq<Creneau>
  {
    SortByKey(Filter(cs, (c: Creneau) => DateOf(c.debut) == DateOf(date)), CR.ByDebut)
  }

  /** It holds exactly the slots starting on the selected date, ordered by start. */
  lemma SlotsOnSpec(cs: seq<Creneau>, date: int)
    ensures CR.OrderedByDebut(SlotsOn(cs, date))
    ensures forall c :: c in SlotsOn(cs, date) <==> c in cs && DateOf(c.debut) == DateOf(date)
  {
    FilterThenSort(cs, (c: Creneau) => DateOf(c.debut) == DateOf(date), CR.ByDebut);
    CR.SortedByDebut(SlotsOn(cs, date));
  }

  /** `ds` is `today.AddDays(i)` for each `i` below `OfferedDays`. */
  predicate OfferedFrom(ds: seq<int>, today: int)
  {
    |ds| == OfferedDays && forall i :: 0 <= i < |ds| ==> ds[i] == today + i * SecondsPerDay
  }

  /** The offered days start today, follow one another a day apart, and fall on the
      consecutive dates from today's on. */
  lemma OfferedDaysConsecutive(ds: seq<int>, today: int)
    requires OfferedFrom(ds, today)
    ensures ds[0] == today
    ensures forall i :: 0 <= i < |ds| - 1 ==> ds[i + 1] == ds[i] + SecondsPerDay
    ensures forall i :: 0 <= i < |ds| ==> DateOf(ds[i]) == DateOf(today) + i && TimeOfDay(ds[i]) == TimeOfDay(today)
  {
    forall i | 0 <= i < |ds|
      ensures DateOf(ds[i]) == DateOf(today) + i && TimeOfDay(ds[i]) == TimeOfDay(today)
    {
      SplitJoin(today);
      DivModUnique(ds[i], DateOf(today) + i, TimeOfDay(today));
    }
  }

  /** The loop filling `futureDate`. */
  method FutureDates(today: int) returns (dates: seq<int>)
    ensures OfferedFrom(dates, today)
  {
    dates := [];
    for i := 0 to OfferedDays
      invariant |dates| == i
      invariant forall k :: 0 <= k < i ==> dates[k] == today + k * SecondsPerDay
    {
      dates := dates + [today + i * SecondsPerDay];
    }
  }

  /** `{n:00}`: at least two decimal digits. */
  function Pad2(n: nat): (r: string)
    ensures n < 100 ==> |r| == 2
  {
    if n < 100 then ["0123456789"[n / 10], "0123456789"[n % 10]] else NatToString(n)
  }

  /** `{t:HH:mm}`. */
  function Clock(t: int): (r: string)
    ensures |r| == 5 && r[2] == ':'
  {
    var s := TimeOfDay(t);
    Pad2(s / SecondsPerHour) + ":" + Pad2(s % SecondsPerHour / 60)
  }

  /** The warning `SelectCreneau` shows for a slot that is already booked. */
  function SlotConflictText(c: Creneau): string
  {
    "Conflit: Le créneau " + Clock(c.debut) + " - " + Clock(c.fin) + " est déjà réservé!"
  }

  class ReservationDialogViewModel {
    /** `_repositoryManager != null`: set by `LoadCreneaux`. */
    var connected: bool
    var allCreneaux: seq<Creneau>
    var bookedCreneauIds: set<int>
    var selectedSalle: Option<Salle>
    var motif: string
    var creneauxForSelectedDate: seq<Creneau>
    var selectedCreneau: Option<Creneau>
    var canCreateReservation: bool
    var selectedDate: int
    var availableDates: seq<int>
    var conflictMessage: string
    var hasConflictWarning: bool
    var customStartDate: int
    var customStartTime: int
    var customEndTime: int
    var useCustomTime: bool
    var minimumDate: Option<int>
    var customEndDate: int

    /** The field initialisers, with `DateTime.Today` as `today`. */
    constructor(today: int)
      ensures !connected && allCreneaux == [] && bookedCreneauIds == {} && selectedSalle == None
      ensures motif == "" && creneauxForSelectedDate == [] && selectedCreneau == None && !canCreateReservation
      ensures selectedDate == today && availableDates == [] && conflictMessage == "" && !hasConflictWarning
      ensures customStartDate == today && customStartTime == DefaultStartTime && customEndTime == DefaultEndTime
      ensures !useCustomTime && minimumDate == Some(today) && customEndDate == today
    {
      connected, allCreneaux, bookedCreneauIds, selectedSalle := false, [], {}, None;
      motif, creneauxForSelectedDate, selectedCreneau, canCreateReservation := "", [], None, false;
      selectedDate, availableDates, conflictMessage, hasConflictWarning := today, [], "", false;
      customStartDate, customStartTime, customEndTime := today, DefaultStartTime, DefaultEndTime;
      useCustomTime, minimumDate, customEndDate := false, Some(today), today;
    }

    /** What the button's state should be for the current fields. */
    predicate CanCreateNow()
      reads this`selectedSalle, this`motif, this`hasConflictWarning, this`useCustomTime,
            this`customStartDate, this`customEndDate, this`customStartTime, this`customEndTime,
            this`selectedCreneau
    {
      CanCreate(selectedSalle.Some?, motif, hasConflictWarning, useCustomTime,
                customStartDate, customEndDate, customStartTime, customEndTime, selectedCreneau.Some?)
    }

    /** The button's state agrees with the fields. */
    predicate Consistent()
      reads this`canCreateReservation, this`selectedSalle, this`motif, this`hasConflictWarning,
            this`useCustomTime, this`customStartDate, this`customEndDate, this`customStartTime,
            this`customEndTime, this`selectedCreneau
    {
      canCreateReservation == CanCreateNow()
    }

    /** `UpdateCanCreateReservation`. */
    method UpdateCanCreateReservation()
      modifies this`canCreateReservation
      ensures Consistent()
    {
      canCreateReservation := CanCreate(selectedSalle.Some?, motif, hasConflictWarning, useCustomTime,
                                        customStartDate, customEndDate, customStartTime, customEndTime,
                                        selectedCreneau.Some?);
    }

    /** `FilterCreneauxByDate`. */
    method FilterCreneauxByDate()
      modifies this`creneauxForSelectedDate
      ensures creneauxForSelectedDate == SlotsOn(allCreneaux, selectedDate)
    {
      creneauxForSelectedDate := SlotsOn(allCreneaux, selectedDate);
    }

    /** `SelectCreneau`: a null slot is ignored; otherwise the slot is selected and, once
        loaded, checked against the room's blocking reservations. */
    method SelectCreneau(db: Database, creneau: Option<Creneau>)
      modifies this`selectedCreneau, this`hasConflictWarning, this`conflictMessage, this`canCreateReservation
      ensures creneau.None? ==> selectedCreneau == old(selectedCreneau) && canCreateReservation == old(canCreateReservation)
      ensures creneau.None? || !connected || selectedSalle.None? ==>
        hasConflictWarning == old(hasConflictWarning) && conflictMessage == old(conflictMessage)
      ensures creneau.Some? ==> selectedCreneau == creneau && Consistent()
      ensures creneau.Some? && connected && selectedSalle.Some? ==>
        hasConflictWarning == RR.HasConflict(db.reservations, selectedSalle.value.id, creneau.value.id, None) &&
        conflictMessage == if hasConflictWarning then SlotConflictText(creneau.value) else ""
    {
      if creneau.None? {
        return;
      }
      selectedCreneau := creneau;
      if connected && selectedSalle.Some? {
        CheckSlotConflict(db, selectedSalle.value.id, creneau.value);
      }
      UpdateCanCreateReservation();
    }

    /** The conflict check of `SelectCreneau`: the warning is raised exactly when a
        blocking reservation of room `salleId` holds slot `c`. */
    method CheckSlotConflict(db: Database, salleId: int, c: Creneau)
      modifies this`hasConflictWarning, this`conflictMessage
      ensures hasConflictWarning == RR.HasConflict(db.reservations, salleId, c.id, None)
      ensures conflictMessage == if hasConflictWarning then SlotConflictText(c) else ""
    {
      var hasConflict := RR.HasConflict(db.reservations, salleId, c.id, None);
      if hasConflict {
        hasConflictWarning := true;
        conflictMessage := SlotConflictText(c);
      } else {
        hasConflictWarning := false;
        conflictMessage := "";
      }
    }

    /** `OnDateSelected`: lists the slots of the selected date and clears the selection. */
    method OnDateSelected()
      modifies this`creneauxForSelectedDate, this`selectedCreneau, this`canCreateReservation
      ensures creneauxForSelectedDate == SlotsOn(allCreneaux, selectedDate)
      ensures selectedCreneau == None && Consistent()
    {
      FilterCreneauxByDate();
      selectedCreneau := None;
      UpdateCanCreateReservation();
    }

    /** Assigning `Motif`: the change handler refreshes the button when the text differs. */
    method SetMotif(m: string)
      modifies this`motif, this`canCreateReservation
      ensures motif == m
      ensures m != old(motif) ==> Consistent()
      ensures m == old(motif) ==> canCreateReservation == old(canCreateReservation)
    {
      if m != motif {
        motif := m;
        UpdateCanCreateReservation();
      }
    }

    /** Assigning `CustomStartDate`, `CustomEndDate`, `CustomStartTime` or `CustomEndTime`:
        each has a change handler that refreshes the button. */
    method SetCustomRange(startDate: int, endDate: int, startTime: int, endTime: int)
      modifies this`customStartDate, this`customEndDate, this`customStartTime, this`customEndTime,
               this`canCreateReservation
      ensures customStartDate == startDate && customEndDate == endDate
      ensures customStartTime == startTime && customEndTime == endTime
      ensures (startDate, endDate, startTime, endTime) != old((customStartDate, customEndDate, customStartTime, customEndTime)) ==>
        Consistent()
      ensures (startDate, endDate, startTime, endTime) == old((customStartDate, customEndDate, customStartTime, customEndTime)) ==>
        canCreateReservation == old(canCreateReservation)
    {
      if (startDate, endDate, startTime, endTime) != (customStartDate, customEndDate, customStartTime, customEndTime) {
        customStartDate, customEndDate, customStartTime, customEndTime := startDate, endDate, startTime, endTime;
        UpdateCanCreateReservation();
      }
    }

    /** Assigning `UseCustomTime`: there is no change handler, so the button keeps its
        state until `UpdateCanCreateReservationPublic` is called. */
    method SetUseCustomTime(b: bool)
      modifies this`useCustomTime
      ensures useCustomTime == b
    {
      useCustomTime := b;
    }

    /** The fields are filled and no blank motif blocks: the command's first two guards. */
    predicate Ready()
      reads this
    {
      connected && selectedSalle.Some? && !IsNullOrWhiteSpace(motif)
    }

    /** The custom start and end: each date's `.Date` plus its time. */
    function CustomStart(): int reads this { At(DateOf(customStartDate), customStartTime) }
    function CustomEnd(): int reads this { At(DateOf(customEndDate), customEndTime) }

    /** Every check of the create command passes against `rows` and `users`. */
    predicate Admissible(rows: seq<Row>, users: seq<User>)
      reads this
    {
      Ready() &&
      (if useCustomTime then
         CustomStart() < CustomEnd() && customEndDate >= customStartDate &&
         !RR.HasTimeConflict(rows, selectedSalle.value.id, CustomStart(), CustomEnd(), None)
       else
         selectedCreneau.Some? && !RR.HasConflict(rows, selectedSalle.value.id, selectedCreneau.value.id, None)) &&
      UserRepository.GetUserById(users, CurrentUserId).Some?
    }

    /** The reservation the command inserts when it is admissible. */
    function Booking(users: seq<User>, now: int): Reservation
      reads this
      requires Ready() && UserRepository.GetUserById(users, CurrentUserId).Some?
      requires useCustomTime || selectedCreneau.Some?
    {
      var user := UserRepository.GetUserById(users, CurrentUserId).value;
      if useCustomTime then
        DialogReservation(now, motif, user.id, selectedSalle.value.id, None, CustomStart(), CustomEnd())
      else
        DialogReservation(now, motif, user.id, selectedSalle.value.id, Some(selectedCreneau.value.id),
                          selectedCreneau.value.debut, selectedCreneau.value.fin)
    }

    /** `CreateReservation` (`now` is `DateTime.Now`): each guard in turn, then the insert. */
    method CreateReservation(db: Database, now: int) returns (outcome: DialogOutcome)
      modifies db`reservations
      ensures !outcome.Created? ==> db.reservations == old(db.reservations)
      ensures outcome == InvalidRange <==> Ready() && useCustomTime && CustomStart() >= CustomEnd()
      ensures outcome == EndDateBeforeStart <==>
        Ready() && useCustomTime && CustomStart() < CustomEnd() && customEndDate < customStartDate
      ensures outcome == TimeConflict <==>
        Ready() && useCustomTime && CustomStart() < CustomEnd() && customEndDate >= customStartDate &&
        RR.HasTimeConflict(old(db.reservations), selectedSalle.value.id, CustomStart(), CustomEnd(), None)
      ensures outcome == SlotConflict <==>
        Ready() && !useCustomTime && selectedCreneau.Some? &&
        RR.HasConflict(old(db.reservations), selectedSalle.value.id, selectedCreneau.value.id, None)
      ensures outcome.Created? <==> Admissible(old(db.reservations), db.users)
      ensures outcome.Created? ==>
        outcome.id == NextId(old(db.reservations), (x: Row) => x.id) &&
        db.reservations == old(db.reservations) + [RR.ToRow(Booking(db.users, now)).(id := outcome.id)]
    {
      if selectedSalle.None? || !connected {
        return Silent;
      }
      if IsNullOrWhiteSpace(motif) {
        return Silent;
      }
      var salleId := selectedSalle.value.id;
      if useCustomTime {
        var start, end := CustomStart(), CustomEnd();
        if start >= end {
          return InvalidRange;
        }
        if customEndDate < customStartDate {
          return EndDateBeforeStart;
        }
        if RR.HasTimeConflict(db.reservations, salleId, start, end, None) {
          return TimeConflict;
        }
      } else {
        if selectedCreneau.None? {
          return Silent;
        }
        if RR.HasConflict(db.reservations, salleId, selectedCreneau.value.id, None) {
          return SlotConflict;
        }
      }
      var user := UserRepository.GetUserById(db.users, CurrentUserId);
      if user.None? {
        return Silent;
      }
      // The success box needs `reservationId > 0`, which a fresh id always is.
      var id := RR.CreateReservation(db, Booking(db.users, now));
      outcome := Created(id);
    }

    /** The fields `LoadCreneaux` resets first. */
    method ResetForm(salle: Salle, today: int)
      modifies this`selectedSalle, this`connected, this`motif, this`selectedCreneau, this`selectedDate,
               this`customEndDate, this`useCustomTime, this`minimumDate
      ensures connected && selectedSalle == Some(salle) && motif == "" && selectedCreneau == None
      ensures selectedDate == today && customEndDate == today && !useCustomTime && minimumDate == Some(today)
    {
      selectedSalle := Some(salle);
      connected := true;
      motif := "";
      selectedCreneau := None;
      selectedDate := today;
      customEndDate := today;
      useCustomTime := false;
      minimumDate := Some(today);
    }

    /** The room's free slots and the offered days from `today` are loaded, and the
        slots of the selected date are listed. */
    predicate SlotsLoaded(cs: seq<Creneau>, rows: seq<Row>, salleId: int, today: int)
      reads this`allCreneaux, this`bookedCreneauIds, this`availableDates, this`creneauxForSelectedDate,
            this`selectedDate
    {
      allCreneaux == LoadedSlots(cs, rows, salleId) && bookedCreneauIds == BookedIds(rows, salleId) &&
      OfferedFrom(availableDates, today) && creneauxForSelectedDate == SlotsOn(allCreneaux, selectedDate)
    }

    /** The part of `LoadCreneaux` after the reset: when the catalogue is not empty, the
        room's free slots, the offered days and the selected date's slots are loaded;
        otherwise the lists are left as they were. */
    method LoadSlots(db: Database, salleId: int, today: int)
      modifies this`allCreneaux, this`bookedCreneauIds, this`availableDates, this`creneauxForSelectedDate
      ensures |db.creneaux| > 0 ==> SlotsLoaded(db.creneaux, db.reservations, salleId, today)
      ensures |db.creneaux| == 0 ==>
        allCreneaux == old(allCreneaux) && bookedCreneauIds == old(bookedCreneauIds) &&
        availableDates == old(availableDates) && creneauxForSelectedDate == old(creneauxForSelectedDate)
    {
      var creneaux := CR.GetAllCreneaux(db.creneaux);
      if |creneaux| > 0 {
        var dates := FutureDates(today);
        var booked := BookedIds(db.reservations, salleId);
        var loaded := LoadedSlots(db.creneaux, db.reservations, salleId);
        StoreSlots(booked, loaded, dates);
      }
    }

    /** Stores the booked ids, the free slots and the offered days, then lists the
        selected date's slots. */
    method StoreSlots(booked: set<int>, loaded: seq<Creneau>, dates: seq<int>)
      modifies this`allCreneaux, this`bookedCreneauIds, this`availableDates, this`creneauxForSelectedDate
      ensures bookedCreneauIds == booked && allCreneaux == loaded && availableDates == dates
      ensures creneauxForSelectedDate == SlotsOn(loaded, selectedDate)
    {
      bookedCreneauIds, allCreneaux, availableDates := booked, loaded, dates;
      FilterCreneauxByDate();
    }

    /** `LoadCreneaux` (`today` is `DateTime.Today`): resets the form, then, when the
        catalogue is not empty, keeps the slots the room's reservations do not reference,
        offers the next 365 days and lists today's slots. */
    method LoadCreneaux(salle: Salle, db: Database, today: int)
      modifies this`selectedSalle, this`connected, this`motif, this`selectedCreneau, this`selectedDate,
               this`customEndDate, this`useCustomTime, this`minimumDate,
               this`allCreneaux, this`bookedCreneauIds, this`availableDates, this`creneauxForSelectedDate,
               this`canCreateReservation
      ensures connected && selectedSalle == Some(salle) && motif == "" && selectedCreneau == None
      ensures selectedDate == today && customEndDate == today && !useCustomTime && minimumDate == Some(today)
      ensures |db.creneaux| > 0 ==> SlotsLoaded(db.creneaux, db.reservations, salle.id, today)
      ensures |db.creneaux| == 0 ==>
        allCreneaux == old(allCreneaux) && bookedCreneauIds == old(bookedCreneauIds) &&
        availableDates == old(availableDates) && creneauxForSelectedDate == old(creneauxForSelectedDate)
      ensures Consistent()
    {
      ResetForm(salle, today);
      // The button's state depends on none of the loaded lists, so it is computed first.
      UpdateCanCreateReservation();
      LoadSlots(db, salle.id, today);
    }
  }
}
