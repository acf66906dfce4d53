# ReserV6 booking core, modelled in Dafny

ReserV6 is a WPF application for booking rooms (salles). Users book a room either
for a predefined time slot (créneau) or for a custom date and time range. A
reservation's status (EnAttente, Confirmée, EnCours, Terminée, Annulée) follows the
clock. Every create, cancel and modify of a reservation is recorded in a history
table. The pages list, search and filter rooms, slots and reservations.

This project models the part of ReserV6 that decides things:

- **Conflicts.** The slot-conflict and custom-range conflict predicates of
  `ReservationRepository`, the slot-overlap check of `CreneauRepository`, and the
  conflict reports, available slots and availability status of
  `ConflictResolutionService`.
- **Status.** The status reconciliation pass of `ReservationStatusService` and
  `GetExpectedStatus`. The status as stored (the enum's name) and as parsed back.
  The status derivation the converters and the reservations page repeat on strings.
- **Orchestration.** `ReservationService.CreateReservation`, `CancelReservation` and
  `ModifyReservation`, with their guard order, store write and history append.
  `FindAvailableRooms` and `GetRoomStatistics`.
- **Records.** The computed dates and durations of `ReservationSystemModels`.
- **Queries.** The room, slot, equipment and reservation queries of the
  repositories: each WHERE clause is a filter, and each ORDER BY a stable sort on a
  key.
- **Pages.** The reservation dialog (validation, slot hiding, construction of the
  reservation), the reservations page (status filter, cancel and delete commands),
  the room catalogue (filter chain, floor list, one equipment choice per type,
  synchronised selection) and the room administration page (forms, create, update,
  delete, search).

How the model is built:

- The SQLite database is a `Store.Database` object whose tables are sequences in
  row order.
- A query is a function of its tables. An INSERT, UPDATE or DELETE is a method that
  reassigns a table and is tied, in its `ensures`, to a function of the old tables.
  The properties are proved as lemmas about those functions.
- An inserted row gets one more than the largest id in use, which is what
  `last_insert_rowid` gives on these tables.
- Instants are whole seconds (`Time.At(day, span)`): a reservation keeps a date and
  a time of day, and a slot keeps two instants.
- The clock (`DateTime.Now`) is a parameter `now`.
- The view models are classes whose fields are the observable properties. Each
  command is a method that runs to completion.

## Where the code does something other than what it evidently intends

Each point below follows the code, and a lemma of the model exhibits it.

- **Multi-day custom ranges.** `HasTimeConflict` compares the dates and the times
  of day separately. It therefore misses some overlapping multi-day bookings
  (`ReservationRepository.MultiDayMissedConflict`) and reports some disjoint ones
  (`ReservationRepository.MultiDaySpuriousConflict`). On a single day it is exactly
  half-open overlap (`ReservationRepository.SingleDayClauseIsOverlap`).
- **EnCours is stored but never read back.** The enum's name "EnCours" is stored,
  but the parser has no arm for it, so it reads back as EnAttente
  (`ReservationRepository.StatusRoundTrip`). The status pass therefore rewrites
  such a row on every pass while the booking runs
  (`ReservationStatusService.InProgressRewrittenEveryPass`).
- **EnCours does not block.** The conflict checks count only 'EnAttente' (or
  'En attente') and 'Confirmée'. A booking stored as EnCours never blocks a new one
  (`ReservationRepository.InProgressNeverBlocks`), even though the conflict report
  would list it (`ConflictResolutionService.InProgressRowReportedButNotBlocking`).
- **"En attente" and "EnAttente".** The stored name is "EnAttente", while the
  available-slot queries of `CreneauRepository` and `SalleRepository` test
  'En attente'. A pending booking therefore leaves its slot listed as free
  (`CreneauRepository.HoldsSlotOfName`).
- **Motif-only modifications.** `ModifyReservation` re-checks for conflicts only
  when a new room or slot is given, and writes back the status it read. A row stored
  as "EnCours" is read as EnAttente. A motif-only change writes it back as
  "EnAttente", which blocks, with no check, so two blocking rows can then hold the
  same slot (`ReservationService.MotifOnlyModifyBreaksNoDoubleBooking`).
- **Unaccented names in the converters.** The converters and the reservations
  page test "Annulee", "Terminee" and "Confirmee" without accents. The stored
  names carry accents ("Annulée", ...).
  - A cancelled booking that has not started is not recognised as cancelled
    (`ReservationDynamicConverters.CancelledBeforeStartIsNotRecognised`).
  - The badge colour of a stored name is looked up accordingly
    (`ReservationDynamicConverters.BadgeOfName`).
  - The page's "Confirmee" and "Annulee" filters always show an empty list
    (`ReservationsViewModel.UnaccentedOptionsMatchNothing`).
- **The page's cancel command.** It writes Annulée directly and skips the
  service's guards against cancelling a reservation that is already cancelled or
  finished (`ReservationsViewModel.CancelCommandSkipsGuards`).
- **A cancelled booking still hides its slot.** The reservation dialog hides every
  slot referenced by a reservation of the room, whatever its status
  (`ReservationDialogViewModel.CancelledBookingHidesSlot`).
- **Custom-range bookings in availability.** `GetSalleAvailabilityStatus` can
  report a room as unavailable, because of a custom-range booking, while listing
  no conflict (`ConflictResolutionService.UnavailableWithNoListedConflict`).
  `GetAvailableSallesForPeriod` ignores such bookings altogether
  (`SalleRepository.SlotlessIgnored`).
- **Times of day of 24 hours or more** lose their days when stored as "hh:mm:ss"
  (`ReservationRepository.LongTimeNotKept`).
- **A default `Reservation`.** Its dates are `DateTime.MinValue`, so the first
  status pass would end it at once
  (`ReservationStatusService.DefaultDatesEndAtOnce`).
- **The dialog's end-date check** is implied by its start-before-end check
  (`ReservationDialogViewModel.EndDateCheckRedundant`). The view model has no change
  handler for switching between slot mode and custom mode, so the flag alone does not
  recompute whether the reservation can be created
  (`ReservationDialogViewModel.ReservationDialogViewModel.SetUseCustomTime`). The dialog
  window's code-behind may refresh the button on that change; the window is not part
  of this model.
- **The reservations page after a reload.** When the reload returns no rows, the
  page keeps its old list (`ReservationsViewModel.ReservationsViewModel.LoadData`).
- **The room catalogue.**
  - Toggling an equipment check box re-synchronises the selection but does not
    re-run the filter (`RoomsViewModel.RoomsViewModel.SetItemSelected`).
  - A load shows every room whatever the criteria in force (`RoomsViewModel.AfterLoadRooms`).
- **The room administration page.**
  - A created room keeps its description in the page's list. The store has none,
    because the INSERT lists no description column
    (`SallesGestionViewModel.CreatedDescriptionNotStored`).
  - A successful edit redisplays every room and drops the active search
    (`SallesGestionViewModel.UpdateDropsSearch`).
  - A failed room edit leaves the edited values in the lists
    (`SallesGestionViewModel.SallesGestionViewModel.SaveSalle`).
  - An equipment edit made without a store stays written in memory
    (`SallesGestionViewModel.SallesGestionViewModel.SaveEquipement`).

## Model

A query or decision function whose meaning is stated by a lemma has no row of its own: the lemma's row stands for it (`ReservationRepository.GetAllReservationsSpec` for `GetAllReservations`, `SalleRepository.GetAllSallesSpec` for `GetAllSalles`, `ConflictResolutionService.GetAvailableCreneauxMembers` and `GetAvailableCreneauxOrdered` for `GetAvailableCreneaux`, `ReservationDynamicConverters.DerivedStatusCases` for `DerivedStatus`, `RoomsViewModel.RoomFilterSpec` for `RoomFilter`, `ReservationStatusService.NextStatusCases` for `NextStatus`, `ReservationStatusService.ExpectedStatusAgreesWithPass` for `GetExpectedStatus`, and so on for each `…Spec` row).

| member | source | states |
|---|---|---|
| ConflictResolutionService.CheckCreneauConflict | ReserV6/Services/ConflictResolutionService.cs:20-23 | true exactly when some stored row is an active booking of that room and slot (the repository's slot check, no id excluded) |
| ConflictResolutionService.CheckTimeConflict | ReserV6/Services/ConflictResolutionService.cs:28-37 | fails with the range message exactly when start >= end; otherwise gives the repository's custom-range check |
| ConflictResolutionService.IsSalleAvailable | ReserV6/Services/ConflictResolutionService.cs:77-80 | the negation of CheckTimeConflict, and the same failure for an invalid range |
| ConflictResolutionService.ReservationsOf | ReserV6/Services/ConflictResolutionService.cs:48-71 | the reservations of a conflict list, position by position |
| ConflictResolutionService.ConflictsAreFilter | ReserV6/Services/ConflictResolutionService.cs:50-69 | the loop keeps exactly the reservations whose resolved slot overlaps the range, in order |
| ConflictResolutionService.ConflictsPairSlots | ReserV6/Services/ConflictResolutionService.cs:54-66 | each reported reservation is paired with its own resolved slot |
| ConflictResolutionService.GetConflictingReservations | ReserV6/Services/ConflictResolutionService.cs:42-72 | the loop's result is the specification ConflictingReservations on the current store |
| ConflictResolutionService.ConflictingReservationsFilter | ReserV6/Services/ConflictResolutionService.cs:44-69 | the reported reservations are the room's list filtered by "Confirmée or EnAttente, with an overlapping slot", a subsequence of that list |
| ConflictResolutionService.ConsideredAndReported | ReserV6/Services/ConflictResolutionService.cs:44-69 | filtering by status and then by overlap is one filter by the conjunction |
| ConflictResolutionService.ConflictingReservationsMembers | ReserV6/Services/ConflictResolutionService.cs:44-69 | a reservation is reported iff it belongs to the room, is Confirmée or EnAttente, has a slot id resolving to a slot, and that slot has debut < end and fin > start |
| ConflictResolutionService.InProgressRowReportedButNotBlocking | ReserV6/Services/ConflictResolutionService.cs:45 | a row stored as "EnCours" reads back as EnAttente, so it is listed as a conflict, yet the custom-range check ignores it |
| ConflictResolutionService.GenerateConflictErrorMessage | ReserV6/Services/ConflictResolutionService.cs:85-111 | "Aucun conflit détecté" exactly when there are no conflicts; otherwise the header naming the room (or "salle id") followed by one bullet per conflict in order |
| ConflictResolutionService.AppendLines | ReserV6/Services/ConflictResolutionService.cs:97-108 | the text after the loop is the header followed by every conflict's bullet line, with the motif in brackets when it is not empty |
| ConflictResolutionService.GetAvailableCreneauxOrdered | ReserV6/Services/ConflictResolutionService.cs:116-129 | the free slots of a day are ordered by start |
| ConflictResolutionService.GetAvailableCreneauxMembers | ReserV6/Services/ConflictResolutionService.cs:116-129 | a slot is offered iff it is stored, starts on that date, and no Confirmée or EnAttente reservation of the room holds its id |
| ConflictResolutionService.GetSalleAvailabilityStatus | ReserV6/Services/ConflictResolutionService.cs:134-155 | fails exactly on an invalid range; available iff the custom-range check finds nothing; the count is the list's length; an empty list when available, the conflict list otherwise |
| ConflictResolutionService.UnavailableWithNoListedConflict | ReserV6/Services/ConflictResolutionService.cs:136-146 | a slotless booking makes the room unavailable while the slot-based conflict list is empty (IsAvailable false with ConflictCount 0) |
| ConflictResolutionService.EdgeCases | ReserV6/CONFLICT_SERVICE_EXAMPLES.cs:268-306 | against a 09:00-10:00 booking, 10:00-11:00 is free while 08:30-10:30, 09:30-10:30 and 09:15-09:45 conflict |
| ConflictResolutionService.NineToTenConflict | ReserV6/CONFLICT_SERVICE_EXAMPLES.cs:268-306 | against a 09:00-10:00 booking, any range within the same day conflicts exactly when it overlaps 09:00-10:00 as a half-open interval |
| ConflictResolutionService.NoSlotsNoConflicts | ReserV6/Services/ConflictResolutionService.cs:42-72 | with an empty slot table the conflict list is empty whatever the reservations |
| CreneauRepository.SortedByDebut | ReserV6/Services/Database/Repositories/CreneauRepository.cs:33 | a list sorted on the `ORDER BY debut` key has non-decreasing starts |
| CreneauRepository.GetAllCreneaux | ReserV6/Services/Database/Repositories/CreneauRepository.cs:21-46 | every stored slot exactly once (same multiset), ordered by start |
| CreneauRepository.GetCreneauById | ReserV6/Services/Database/Repositories/CreneauRepository.cs:51-75 | found exactly when a slot has that id, and the slot found is stored and carries it |
| CreneauRepository.GetCreneauxByPeriod | ReserV6/Services/Database/Repositories/CreneauRepository.cs:80-108 | exactly the stored slots with debut >= the period start and fin <= the period end, ordered by start |
| CreneauRepository.GetAvailableCreneauxForSalle | ReserV6/Services/Database/Repositories/CreneauRepository.cs:113-145 | exactly the stored slots that no 'En attente' or 'Confirmée' row of the room references, ordered by start |
| CreneauRepository.HoldsSlotOfName | ReserV6/Services/Database/Repositories/CreneauRepository.cs:129 | of the status names the store holds, only Confirmée's matches the subquery, so an EnAttente booking does not hide its slot |
| CreneauRepository.HasOverlap | ReserV6/Services/Database/Repositories/CreneauRepository.cs:218-249 | true iff some slot other than the excluded id has debut < requested fin and fin > requested debut |
| CreneauRepository.TouchingSlotsDoNotOverlap | ReserV6/Services/Database/Repositories/CreneauRepository.cs:226-227 | a slot meeting the request only at an endpoint is not an overlap |
| CreneauRepository.OverlapSymmetric | ReserV6/Services/Database/Repositories/CreneauRepository.cs:226-233 | for two distinct slots, each overlaps the other's range or neither does |
| CreneauRepository.AddCreneau | ReserV6/Services/Database/Repositories/CreneauRepository.cs:150-172 | appends the slot under the next free id and returns that id |
| CreneauRepository.UpdateSlots | ReserV6/Services/Database/Repositories/CreneauRepository.cs:185-187 | same length; every row keeps its id and creation date; the row with that id takes the new start and end, all others are unchanged |
| CreneauRepository.UpdateCreneau | ReserV6/Services/Database/Repositories/CreneauRepository.cs:177-195 | reports success iff a slot had that id; the table is rewritten by UpdateSlots |
| CreneauRepository.DeleteCreneau | ReserV6/Services/Database/Repositories/CreneauRepository.cs:200-213 | reports success iff a slot had that id, which is removed from the table |
| EquipementRepository.GetSalleEquipements | ReserV6/Services/Database/Repositories/EquipementRepository.cs:80-107 | exactly the stored equipment of that room, ordered by name |
| EquipementRepository.GetAllEquipements | ReserV6/Services/Database/Repositories/EquipementRepository.cs:21-46 | every stored piece of equipment exactly once (same multiset) |
| EquipementRepository.GetAllEquipementsSorted | ReserV6/Services/Database/Repositories/EquipementRepository.cs:33 | the listing is sorted by room id, then by name |
| EquipementRepository.AddEquipement | ReserV6/Services/Database/Repositories/EquipementRepository.cs:144-169 | appends the equipment under the next free id and returns that id |
| EquipementRepository.UpdateEquipementRows | ReserV6/Services/Database/Repositories/EquipementRepository.cs:182-185 | same length; every row keeps its id and creation date; rows with another id are unchanged; the row with that id takes every new column except dateCreation |
| EquipementRepository.UpdateEquipement | ReserV6/Services/Database/Repositories/EquipementRepository.cs:174-196 | reports success iff a row had that id; the table is rewritten by UpdateEquipementRows |
| EquipementRepository.DeleteEquipement | ReserV6/Services/Database/Repositories/EquipementRepository.cs:223-236 | reports success iff a row had that id, which is removed from the table |
| HistoriqueRepository.AddAction | ReserV6/Services/Database/Repositories/HistoriqueRepository.cs:110-120 | appends one entry (the action, dated now, for that reservation) under the next free id and returns that id |
| UserRepository.GetUserById | ReserV6/Services/Database/Repositories/UserRepository.cs:51-75 | found exactly when a user has that id, and the user found is stored and carries it |
| ReservationSystemModels.Creneau.Duree | ReserV6/Models/ReservationSystemModels.cs:61 | start plus duration is the end, and the duration is positive iff the slot starts before it ends |
| ReservationSystemModels.NameInjective | ReserV6/Models/ReservationSystemModels.cs:99-106 | the five status names are pairwise distinct, so a stored name identifies its status |
| ReservationSystemModels.Reservation.DureeTotal | ReserV6/Models/ReservationSystemModels.cs:91-93 | start instant plus total duration is the end instant |
| ReservationSystemModels.NewReservation | ReserV6/Models/ReservationSystemModels.cs:67-75 | a new reservation is Confirmée and has no slot |
| ReservationSystemModels.NewReservationInstants | ReserV6/Models/ReservationSystemModels.cs:78-93 | a default reservation starts and ends at the epoch and lasts nothing |
| ReservationSystemModels.SplitRoundTrip | ReserV6/Models/ReservationSystemModels.cs:91-93 | storing an instant's date and time of day as a reservation's start (end) gives that instant back as DateTimeDebut (DateTimeFin), and the duration is end − start |
| ReservationSystemModels.DureeTotalByParts | ReserV6/Models/ReservationSystemModels.cs:91-93 | with times of day under 24 h the duration is days·86400 plus the time difference, and positive iff the (date, time) end pair comes after the start pair |
| ReservationSystemModels.ReservationComplete.DureeHeures | ReserV6/Models/ReservationSystemModels.cs:148 | the whole number of hours truncated toward zero: start + h hours <= end < start + (h+1) hours for a forward range, and the mirror bound for a reversed one |
| ReservationSystemModels.CompleteMatchesReservation | ReserV6/Models/ReservationSystemModels.cs:146-147 | a view row with a reservation's dates and times has that reservation's start and end, and its whole hours never exceed the duration |
| ReservationSystemModels.IsNotFinalStatusOfName | ReserV6/Models/ReservationSystemModels.cs:153-159 | on a stored status name, IsNotFinalStatus holds exactly for statuses other than Annulée and Terminée |
| ReservationDialogViewModel.CanCreate | ReserV6/ViewModels/Windows/ReservationDialogViewModel.cs:329-347 | the button is enabled only with a room, a non-blank motif and no conflict warning, in either mode |
| ReservationDialogViewModel.CustomCanCreateIffRange | ReserV6/ViewModels/Windows/ReservationDialogViewModel.cs:331-339 | for dates at midnight and times under 24 h, custom mode is enabled iff the common requirements hold and the joined start is strictly before the joined end |
| ReservationDialogViewModel.EndDateCheckRedundant | ReserV6/ViewModels/Windows/ReservationDialogViewModel.cs:126-150 | for such dates and times, a start before the end already implies the end date is not before the start date, so the second custom-mode check never fires |
| ReservationDialogViewModel.DialogReservation | ReserV6/ViewModels/Windows/ReservationDialogViewModel.cs:209-221 | the built reservation is Confirmée, carries the motif, user, room, slot (or none) and the creation instant |
| ReservationDialogViewModel.DialogReservationStored | ReserV6/ViewModels/Windows/ReservationDialogViewModel.cs:217-223 | the date/time split is undone by DateTimeDebut and DateTimeFin, and the stored row reads back as the same reservation |
| ReservationDialogViewModel.BookedIdsMembers | ReserV6/ViewModels/Windows/ReservationDialogViewModel.cs:271-275 | a slot id is booked iff some row of the room references it, whatever that row's status |
| ReservationDialogViewModel.LoadedSlotsSpec | ReserV6/ViewModels/Windows/ReservationDialogViewModel.cs:277-282 | the kept slots are exactly the catalogue's slots whose id is not booked, ordered by start |
| ReservationDialogViewModel.CancelledBookingHidesSlot | ReserV6/ViewModels/Windows/ReservationDialogViewModel.cs:271-282 | a slot held only by an Annulée booking is hidden from the dialog while the repository's free-slot query lists it |
| ReservationDialogViewModel.SlotsOnSpec | ReserV6/ViewModels/Windows/ReservationDialogViewModel.cs:315-327 | the listed slots are exactly the loaded slots starting on the selected date, ordered by start |
| ReservationDialogViewModel.OfferedDaysConsecutive | ReserV6/ViewModels/Windows/ReservationDialogViewModel.cs:284-292 | the 365 offered days start today, are one day apart and fall on consecutive dates at today's time of day |
| ReservationDialogViewModel.FutureDates | ReserV6/ViewModels/Windows/ReservationDialogViewModel.cs:285-290 | the loop builds today plus i days for every i below 365 |
| ReservationDialogViewModel.Pad2 | ReserV6/ViewModels/Windows/ReservationDialogViewModel.cs:80 | a number below 100 is written with exactly two digits |
| ReservationDialogViewModel.Clock | ReserV6/ViewModels/Windows/ReservationDialogViewModel.cs:80 | the HH:mm text has five characters with the colon third |
| ReservationDialogViewModel.ReservationDialogViewModel.constructor | ReserV6/ViewModels/Windows/ReservationDialogViewModel.cs:7-59 | every field starts at its initialiser: today's dates, 09:00-10:00 custom times, predefined mode, nothing selected |
| ReservationDialogViewModel.ReservationDialogViewModel.UpdateCanCreateReservation | ReserV6/ViewModels/Windows/ReservationDialogViewModel.cs:329-347 | afterwards the button state equals CanCreate on the current fields |
| ReservationDialogViewModel.ReservationDialogViewModel.FilterCreneauxByDate | ReserV6/ViewModels/Windows/ReservationDialogViewModel.cs:315-327 | the listed slots become SlotsOn of the loaded slots for the selected date |
| ReservationDialogViewModel.ReservationDialogViewModel.SelectCreneau | ReserV6/ViewModels/Windows/ReservationDialogViewModel.cs:61-92 | a null slot changes nothing; otherwise the slot is selected, the warning is the store's slot conflict (with its message) when a room and store are loaded, and the button is refreshed |
| ReservationDialogViewModel.ReservationDialogViewModel.CheckSlotConflict | ReserV6/ViewModels/Windows/ReservationDialogViewModel.cs:75-88 | the warning flag is exactly the store's conflict test for the room and slot, and the message is the formatted slot text when it is raised and empty otherwise |
| ReservationDialogViewModel.ReservationDialogViewModel.OnDateSelected | ReserV6/ViewModels/Windows/ReservationDialogViewModel.cs:94-101 | lists the selected date's slots, clears the selected slot and refreshes the button |
| ReservationDialogViewModel.ReservationDialogViewModel.SetMotif | ReserV6/ViewModels/Windows/ReservationDialogViewModel.cs:355-360 | a changed motif refreshes the button; re-assigning the same text leaves it alone |
| ReservationDialogViewModel.ReservationDialogViewModel.SetCustomRange | ReserV6/ViewModels/Windows/ReservationDialogViewModel.cs:362-388 | changing any custom date or time refreshes the button; no change leaves it alone |
| ReservationDialogViewModel.ReservationDialogViewModel.SetUseCustomTime | ReserV6/ViewModels/Windows/ReservationDialogViewModel.cs:52-53 | switching mode sets the flag only: the view model has no change handler that refreshes the button |
| ReservationDialogViewModel.ReservationDialogViewModel.CreateReservation | ReserV6/ViewModels/Windows/ReservationDialogViewModel.cs:103-246 | each stop (invalid range, end date before start, time conflict, slot conflict) happens exactly under its guard and writes nothing; a reservation is inserted iff every check passes, as the next id, holding the Confirmée booking built from the custom range or the slot |
| ReservationDialogViewModel.ReservationDialogViewModel.ResetForm | ReserV6/ViewModels/Windows/ReservationDialogViewModel.cs:252-260 | the room and store are set, the motif and slot cleared, dates reset to today, predefined mode |
| ReservationDialogViewModel.ReservationDialogViewModel.LoadSlots | ReserV6/ViewModels/Windows/ReservationDialogViewModel.cs:266-300 | with a non-empty catalogue the booked ids, the kept slots, the 365 days and the selected date's slots are all loaded; with an empty one the four lists are unchanged |
| ReservationDialogViewModel.ReservationDialogViewModel.LoadCreneaux | ReserV6/ViewModels/Windows/ReservationDialogViewModel.cs:248-313 | resets the form; with a non-empty catalogue loads the slots and days, with an empty one keeps the old lists; the button agrees with the fields |
| ReservationDynamicConverters.ConvertersShareDerivation | ReserV6/Converters/ReservationDynamicConverters.cs:13-146 | the status, row-colour and badge converters all apply the same derived status; an input that is not a view row gets the input back, a transparent row, no edit and a gray badge |
| ReservationDynamicConverters.DerivedStatusCases | ReserV6/Converters/ReservationDynamicConverters.cs:23-38 | past the end "Terminee" whatever is stored, Annulée included; inside the slot "EnCours"; before the start the stored text |
| ReservationDynamicConverters.RowColorByTime | ReserV6/Converters/ReservationDynamicConverters.cs:61-78 | light gray after the end, light green while running; before the start light red exactly for the text "Annulee", white for any other text but the three derived ones |
| ReservationDynamicConverters.Unaccented | ReserV6/Converters/ReservationDynamicConverters.cs:138-146 | the spelling the switches test: equal to the stored name for EnAttente and EnCours |
| ReservationDynamicConverters.DerivedAgreesWithStatusPass | ReserV6/Converters/ReservationDynamicConverters.cs:22-30 | once started, the derived text is the unaccented status the status pass assigns, except for a cancelled reservation, which the pass leaves Annulée while the converter shows "EnCours" or "Terminee" |
| ReservationDynamicConverters.CancelledBeforeStartIsNotRecognised | ReserV6/Converters/ReservationDynamicConverters.cs:31-33 | a stored "Annulée" never equals the tested "Annulee": before its start it shows "Annulée", on a white row, editable, with a gray badge |
| ReservationDynamicConverters.CanEditOfName | ReserV6/Converters/ReservationDynamicConverters.cs:103-104 | for any stored status name, a row is editable exactly when it has not started |
| ReservationDynamicConverters.BadgeOfName | ReserV6/Converters/ReservationDynamicConverters.cs:138-146 | before the start a stored EnAttente is orange and EnCours teal, while Confirmée, Annulée and Terminée (stored with accents) fall to gray |
| ReservationRepository.ParseCases | ReserV6/Services/Database/Repositories/ReservationRepository.cs:450-460 | the parser never yields EnCours; Confirmée, Annulée and Terminée each come only from their own text; every other text gives EnAttente |
| ReservationRepository.StatusRoundTrip | ReserV6/Services/Database/Repositories/ReservationRepository.cs:450-459 | parsing the stored enum name gives the status back for all but EnCours, which comes back EnAttente; "EnAttente" returns only through the default arm |
| ReservationRepository.StoredTime | ReserV6/Services/Database/Repositories/ReservationRepository.cs:422-423 | a time of day written as hh:mm:ss and parsed back lies within one day, and is unchanged when it already did |
| ReservationRepository.RowRoundTrip | ReserV6/Services/Database/Repositories/ReservationRepository.cs:144-171 | writing a reservation with in-day times and reading it back gives it back, except that EnCours becomes EnAttente |
| ReservationRepository.LongTimeNotKept | ReserV6/Services/Database/Repositories/ReservationRepository.cs:162-163 | an end time past 24 h loses its whole day in the store |
| ReservationRepository.Read | ReserV6/Services/Database/Repositories/ReservationRepository.cs:409-425 | the reader maps each row in order |
| ReservationRepository.GetAllReservationsSpec | ReserV6/Services/Database/Repositories/ReservationRepository.cs:21-46 | every row is read exactly once, and the listing comes latest start date first |
| ReservationRepository.GetReservationById | ReserV6/Services/Database/Repositories/ReservationRepository.cs:51-75 | found exactly when a row has that id, and the result is that row as read |
| ReservationRepository.GetSalleReservationsOrdered | ReserV6/Services/Database/Repositories/ReservationRepository.cs:112-139 | the room's reservations all belong to the room and come latest start date first |
| ReservationRepository.GetSalleReservationsMembers | ReserV6/Services/Database/Repositories/ReservationRepository.cs:112-139 | every row of the room is read into the list, and nothing else is |
| ReservationRepository.BlocksSlotOfName | ReserV6/Services/Database/Repositories/ReservationRepository.cs:337-375 | among stored names exactly EnAttente and Confirmée block; EnCours does not |
| ReservationRepository.HasConflict | ReserV6/Services/Database/Repositories/ReservationRepository.cs:326-358 | true iff some row of the room holds that slot with a blocking status and is not the excluded id |
| ReservationRepository.HasTimeConflict | ReserV6/Services/Database/Repositories/ReservationRepository.cs:364-405 | true iff some row of the room with a blocking status, not excluded, is not cleared by the NOT (...) date/time disjunction |
| ReservationRepository.DisjointDatesNeverConflict | ReserV6/Services/Database/Repositories/ReservationRepository.cs:377-378 | a row ending before the start date or starting after the end date never conflicts |
| ReservationRepository.SameDayReduction | ReserV6/Services/Database/Repositories/ReservationRepository.cs:376-382 | for a row and a request on the same day, the clause is heureDebut < end time and heureFin > start time, so touching ranges do not conflict |
| ReservationRepository.SingleDayClauseIsOverlap | ReserV6/Services/Database/Repositories/ReservationRepository.cs:376-382 | for a single-day row and a single-day request on any days, the clause is exactly half-open overlap of the two instant ranges |
| ReservationRepository.MultiDayMissedConflict | ReserV6/Services/Database/Repositories/ReservationRepository.cs:376-382 | a Monday 09:00 - Tuesday 17:00 booking is missed by a Tuesday 08:00-09:00 request that overlaps it |
| ReservationRepository.MultiDaySpuriousConflict | ReserV6/Services/Database/Repositories/ReservationRepository.cs:376-382 | a Monday 09:00 - Tuesday 10:00 booking is reported against a Tuesday 11:00 - Wednesday 12:00 request that does not overlap it |
| ReservationRepository.InProgressNeverBlocks | ReserV6/Services/Database/Repositories/ReservationRepository.cs:337-375 | a row stored as EnCours conflicts in neither check |
| ReservationRepository.SetStatut | ReserV6/Services/Database/Repositories/ReservationRepository.cs:186-188 | only the statut column of the rows with that id changes; every other row is unchanged |
| ReservationRepository.UpdateRows | ReserV6/Services/Database/Repositories/ReservationRepository.cs:207-210 | rows with another id are unchanged |
| ReservationRepository.UpdateRowsSpec | ReserV6/Services/Database/Repositories/ReservationRepository.cs:207-210 | an update keeps every row's id, booking date and user, and the updated row reads back as the reservation with those two kept |
| ReservationRepository.CreateReservation | ReserV6/Services/Database/Repositories/ReservationRepository.cs:144-171 | appends the reservation's row under the next free id and returns that id |
| ReservationRepository.UpdateReservationStatus | ReserV6/Services/Database/Repositories/ReservationRepository.cs:178-195 | reports success iff a row had that id; the table is SetStatut with the status's name |
| ReservationRepository.UpdateReservation | ReserV6/Services/Database/Repositories/ReservationRepository.cs:200-224 | reports success iff a row had that id; the table is rewritten by UpdateRows |
| ReservationRepository.CancelReservation | ReserV6/Services/Database/Repositories/ReservationRepository.cs:229-232 | the status update to "Annulée" and nothing else |
| ReservationRepository.DeleteReservation | ReserV6/Services/Database/Repositories/ReservationRepository.cs:237-250 | reports success iff a row had that id, which is removed from the table |
| ReservationService.CreateCheck | ReserV6/Services/ReservationService.cs:24-44 | the first failing guard in order, each message exactly under its condition: unknown user, unknown room, room not available, unknown slot, slot already held; none exactly when all five pass |
| ReservationService.Booking | ReserV6/Services/ReservationService.cs:47-55 | the new reservation is Confirmée, with the given user, room, slot, motif and creation instant |
| ReservationService.CreateReservation | ReserV6/Services/ReservationService.cs:21-63 | a failed guard returns (false, its message, 0) and writes nothing; otherwise the booking is inserted under the next id, exactly one history entry for it is appended, and (true, message, id) is returned |
| ReservationService.CreateKeepsNoDoubleBooking | ReserV6/Services/ReservationService.cs:42-57 | a booking that passed the slot check keeps "no slot of a room is held twice by blocking rows" |
| ReservationService.NonBlockingStatusKeepsNoDoubleBooking | ReserV6/Services/ReservationService.cs:80-81 | writing a non-blocking status (Annulée, EnCours, Terminée) keeps that invariant |
| ReservationService.StatusPassKeepsNoDoubleBooking | ReserV6/Services/ReservationStatusService.cs:38-93 | the status pass writes only EnCours or Terminée and so keeps that invariant |
| ReservationService.CancelCheck | ReserV6/Services/ReservationService.cs:70-78 | fails for a missing reservation, and otherwise exactly for an Annulée or Terminée one |
| ReservationService.CancelReservation | ReserV6/Services/ReservationService.cs:68-88 | a failed guard writes nothing; otherwise the status becomes Annulée and one history entry is appended on success |
| ReservationService.Modified | ReserV6/Services/ReservationService.cs:107-120 | only room, slot and motif change; an unspecified room or slot keeps its value; the motif changes only for a non-empty new one |
| ReservationService.ModifyCheck | ReserV6/Services/ReservationService.cs:96-115 | fails for a missing, Annulée or Terminée reservation, and, only when a room or slot is supplied, for a slot held by another blocking row |
| ReservationService.ModifyReservation | ReserV6/Services/ReservationService.cs:93-129 | a failed guard writes nothing; otherwise the row is rewritten with Modified, and one history entry is appended on success |
| ReservationService.ModifyKeepsNoDoubleBooking | ReserV6/Services/ReservationService.cs:107-122 | a change that passed the conflict check keeps the no-double-booking invariant on a table with unique ids |
| ReservationService.MotifOnlyModifyBreaksNoDoubleBooking | ReserV6/Services/ReservationService.cs:111-122 | a motif-only change of a row stored as EnCours passes every guard and rewrites it as a blocking EnAttente, so two blocking rows then hold one slot |
| ReservationService.FindAvailableRoomsMembers | ReserV6/Services/ReservationService.cs:134-144 | exactly the view rows whose room is in the available set and whose capacity is at least the minimum |
| ReservationService.FindAvailableRoomsOrdered | ReserV6/Services/ReservationService.cs:141-142 | ordered by floor, then by capacity |
| ReservationService.FindAvailableRoomsFree | ReserV6/Services/ReservationService.cs:136-140 | every returned room is stored, marked available and has no blocking slot booking overlapping the period |
| ReservationService.ListedRoomIsFree | ReserV6/Services/Database/Repositories/SalleRepository.cs:338-350 | every room of the period query is a stored, available room free over the period |
| ReservationService.GetRoomStatistics | ReserV6/Services/ReservationService.cs:157-165 | total is the room's reservation count, confirmed its Confirmée count, 0 <= confirmed <= total, and the rate is their percentage as an exact quotient, which the program's decimal division approximates |
| ReservationService.Rate | ReserV6/Services/ReservationService.cs:162 | 0 for no reservations; otherwise the exact percentage, rate · total = confirmed · 100, which the program's rounded decimal approximates; always between 0 and 100 |
| ReservationService.Percentage | ReserV6/Services/ReservationService.cs:162 | a share of a positive total is between 0 and 100 percent and multiplies back |
| ReservationStatusService.NextStatusCases | ReserV6/Services/ReservationStatusService.cs:40-76 | a write happens only when the status changes, never for Annulée and never before the start; afterwards the status is Annulée if cancelled, Terminée past the end, EnCours once started (Terminée included), else unchanged |
| ReservationStatusService.NextStatusIdempotent | ReserV6/Services/ReservationStatusService.cs:40-94 | on the in-memory reservation a second look at the same time writes nothing |
| ReservationStatusService.Step | ReserV6/Services/ReservationStatusService.cs:78-84 | a pass changes at most the statut column of a row |
| ReservationStatusService.StepIdempotent | ReserV6/Services/ReservationStatusService.cs:40-94 | stepping a stored row twice at the same time leaves the rows stepping it once leaves |
| ReservationStatusService.InProgressRewrittenEveryPass | ReserV6/Services/ReservationStatusService.cs:63-84 | a row written as EnCours reads back as EnAttente, so every later pass during the reservation writes it again |
| ReservationStatusService.ApplyUpdates | ReserV6/Services/ReservationStatusService.cs:40-93 | the successive status updates keep the table's length and every row's id |
| ReservationStatusService.ApplyUpdatesPointwise | ReserV6/Services/ReservationStatusService.cs:40-93 | with unique ids, each row is either untouched or stepped, the latter exactly when its reading was listed |
| ReservationStatusService.StatusPass | ReserV6/Services/ReservationStatusService.cs:40-94 | the pass over the table is the row-by-row Step |
| ReservationStatusService.GetAllReservationsRead | ReserV6/Services/ReservationStatusService.cs:29 | every listed reservation is the reading of a stored row |
| ReservationStatusService.GetAllReservationsComplete | ReserV6/Services/ReservationStatusService.cs:29 | every stored row's reading is listed |
| ReservationStatusService.PassIsStatusPass | ReserV6/Services/ReservationStatusService.cs:23-105 | on a table with unique ids the loop's updates amount to StatusPass, whatever the listing order |
| ReservationStatusService.StatusPassIdempotent | ReserV6/Services/ReservationStatusService.cs:40-94 | two passes at the same time leave the same table as one |
| ReservationStatusService.CountChangesIsCount | ReserV6/Services/ReservationStatusService.cs:86-89 | the counter counted from the end equals the number of listed reservations the pass writes |
| ReservationStatusService.UpdateAllReservationStatuses | ReserV6/Services/ReservationStatusService.cs:23-105 | the table becomes the successive updates for the listed reservations, and updatedCount is the number of reservations whose status changed, each of whose updates succeeds |
| ReservationStatusService.UpdateOne | ReserV6/Services/ReservationStatusService.cs:42-93 | one turn writes the next status exactly when there is one, and reports whether it did |
| ReservationStatusService.UpdateReservationStatus | ReserV6/Services/ReservationStatusService.cs:110-125 | reports success iff a row had that id; only its status changes |
| ReservationStatusService.ExpectedStatusAgreesWithPass | ReserV6/Services/ReservationStatusService.cs:130-144 | for a Confirmée reservation spanning exactly its slot, GetExpectedStatus (EnAttente without a slot, Terminée, EnCours or Confirmée) is the status the pass leaves |
| ReservationStatusService.DefaultDatesEndAtOnce | ReserV6/Services/ReservationStatusService.cs:54-62 | a reservation left with the default epoch dates becomes Terminée at the first pass |
| ReservationsViewModel.PageStatusIsDerivedStatus | ReserV6/ViewModels/Pages/ReservationsViewModel.cs:250-260 | the page's own derivation (past the end "Terminee", inside "EnCours", exact "Annulee", else stored) is the converters' derivation |
| ReservationsViewModel.StatusFilteredSpec | ReserV6/ViewModels/Pages/ReservationsViewModel.cs:239-267 | "Tous" shows the list unchanged; any other filter gives the subsequence of exactly the rows whose derived status is the filter text |
| ReservationsViewModel.UnaccentedOptionMissesRow | ReserV6/ViewModels/Pages/ReservationsViewModel.cs:253-262 | a row holding a stored status name never derives "Confirmee" or "Annulee" |
| ReservationsViewModel.UnaccentedOptionsMatchNothing | ReserV6/ViewModels/Pages/ReservationsViewModel.cs:244-264 | over rows holding stored names, the "Confirmee" and "Annulee" options always show an empty list |
| ReservationsViewModel.ReservationsViewModel.constructor | ReserV6/ViewModels/Pages/ReservationsViewModel.cs:11-36 | empty lists and the "Tous" filter |
| ReservationsViewModel.ReservationsViewModel.ApplyStatusFilter | ReserV6/ViewModels/Pages/ReservationsViewModel.cs:239-272 | the shown list becomes StatusFiltered of the list and the selected filter |
| ReservationsViewModel.ReservationsViewModel.SetReservations | ReserV6/ViewModels/Pages/ReservationsViewModel.cs:286-290 | a new list is stored and the filter reapplied to it |
| ReservationsViewModel.ReservationsViewModel.SetSelectedStatusFilter | ReserV6/ViewModels/Pages/ReservationsViewModel.cs:277-281 | a changed filter reapplies the filter; the same text changes nothing shown |
| ReservationsViewModel.ReservationsViewModel.LoadData | ReserV6/ViewModels/Pages/ReservationsViewModel.cs:45-92 | the status pass runs on the store first; a non-empty reload replaces the list and refilters; an empty one keeps the old list |
| ReservationsViewModel.ReservationsViewModel.CancelReservation | ReserV6/ViewModels/Pages/ReservationsViewModel.cs:168-234 | nothing happens without a selection and a yes; otherwise Annulée is written with no status guard, success iff the id exists, and a success reloads (status pass and list); a declined or failed command leaves the table and both lists as they were, and so does a reload with nothing to load |
| ReservationsViewModel.ReservationsViewModel.DeleteReservation | ReserV6/ViewModels/Pages/ReservationsViewModel.cs:97-163 | nothing happens without a selection and a yes; otherwise the row is deleted, success iff the id exists, and a success reloads; a declined or failed command leaves the table and both lists as they were, and so does a reload with nothing to load |
| ReservationsViewModel.CancelCommandSkipsGuards | ReserV6/ViewModels/Pages/ReservationsViewModel.cs:198-200 | for a Terminée row the service refuses to cancel, while the page's command rewrites it as Annulée |
| SalleRepository.Load | ReserV6/Services/Database/Repositories/SalleRepository.cs:46-50 | a loaded room keeps every stored column; its equipment list holds exactly the equipment whose room is this one |
| SalleRepository.LoadAll | ReserV6/Services/Database/Repositories/SalleRepository.cs:46-50 | one loaded room per result row, in the same order |
| SalleRepository.AttachEquipements | ReserV6/Services/Database/Repositories/SalleRepository.cs:44-50 | the loop over the result list gives each room its own equipment, same length and order, nothing else changed |
| SalleRepository.QueryMembers | ReserV6/Services/Database/Repositories/SalleRepository.cs:30-50 | a WHERE/ORDER BY query followed by the equipment loop returns every room that passes the filter, and only such rooms, each with its own equipment |
| SalleRepository.QuerySorted | ReserV6/Services/Database/Repositories/SalleRepository.cs:30-50 | attaching equipment keeps the ORDER BY order, since no sort key reads the equipment |
| SalleRepository.EtageNomOrder | ReserV6/Services/Database/Repositories/SalleRepository.cs:33 | the "etage, nom" key orders by floor, then by name within a floor |
| SalleRepository.GetAllSallesSpec | ReserV6/Services/Database/Repositories/SalleRepository.cs:21-54 | every room exactly once in count, each with its own equipment, ordered by floor then name |
| SalleRepository.GetSalleById | ReserV6/Services/Database/Repositories/SalleRepository.cs:59-90 | a room is returned exactly when that id is stored; it carries that id and exactly its own equipment |
| SalleRepository.GetAvailableSallesSpec | ReserV6/Services/Database/Repositories/SalleRepository.cs:95-129 | exactly the available rooms, each with its own equipment, ordered by floor then name |
| SalleRepository.GetSallesByFloorSpec | ReserV6/Services/Database/Repositories/SalleRepository.cs:134-169 | exactly the rooms on that floor, available or not, ordered by name |
| SalleRepository.GetSallesByCapacitySpec | ReserV6/Services/Database/Repositories/SalleRepository.cs:174-209 | exactly the available rooms with at least the given capacity, ordered by floor then capacity |
| SalleRepository.GetAvailableSallesForPeriodSpec | ReserV6/Services/Database/Repositories/SalleRepository.cs:329-373 | exactly the available rooms with no 'En attente' or 'Confirmée' booking whose slot overlaps the period, ordered by floor and then name |
| SalleRepository.SlotlessIgnored | ReserV6/Services/Database/Repositories/SalleRepository.cs:342-348 | a booking without a slot drops out of the join, so it never makes a room unavailable for a period |
| SalleRepository.AddSalle | ReserV6/Services/Database/Repositories/SalleRepository.cs:214-239 | appends the room under the next id, with no description (the INSERT has no description column), and returns that id |
| SalleRepository.UpdateSalleRows | ReserV6/Services/Database/Repositories/SalleRepository.cs:250-263 | the row with that id takes every new column except dateCreation; all other rows are unchanged |
| SalleRepository.UpdateSalle | ReserV6/Services/Database/Repositories/SalleRepository.cs:244-266 | succeeds exactly when the id is stored; the table becomes the updated rows |
| SalleRepository.DeleteSalle | ReserV6/Services/Database/Repositories/SalleRepository.cs:271-284 | succeeds exactly when the id is stored; exactly the rows with that id are removed |
| RoomsViewModel.RoomFilterSpec | ReserV6/ViewModels/Pages/RoomsViewModel.cs:102-154 | the filtered rooms keep the catalogue order; a room is listed exactly when it passes each criterion that is set (search on name or description, minimum capacity, floor, every selected equipment type among its equipment) |
| RoomsViewModel.NoCriteriaShowsAll | ReserV6/ViewModels/Pages/RoomsViewModel.cs:102-154 | with a blank search, no capacity, no floor and no equipment selected, every room is listed |
| RoomsViewModel.BareRoomHidden | ReserV6/ViewModels/Pages/RoomsViewModel.cs:136-150 | once any equipment is selected, a room without equipment is never listed |
| RoomsViewModel.Etages | ReserV6/ViewModels/Pages/RoomsViewModel.cs:282 | the floor of each room, in order |
| RoomsViewModel.DistinctFloorsSpec | ReserV6/ViewModels/Pages/RoomsViewModel.cs:282-285 | the distinct floors are exactly the rooms' floors, in strictly ascending order |
| RoomsViewModel.FloorOptionList | ReserV6/ViewModels/Pages/RoomsViewModel.cs:281-290 | the options are "all floors" followed by each distinct floor in order |
| RoomsViewModel.FloorChoices | ReserV6/ViewModels/Pages/RoomsViewModel.cs:281-291 | the loop builds exactly the floor option list of the distinct floors |
| RoomsViewModel.Shifted | ReserV6/ViewModels/Pages/RoomsViewModel.cs:298 | each code point raised by one, so that a 0 can end the type field of the type-then-name key |
| RoomsViewModel.ShiftedOrder | ReserV6/ViewModels/Pages/RoomsViewModel.cs:298 | raising every code point keeps the order of names |
| RoomsViewModel.CommonPrefixOrder | ReserV6/ViewModels/Pages/RoomsViewModel.cs:298 | keys that share a prefix compare as what follows it |
| RoomsViewModel.SameKindOrder | ReserV6/ViewModels/Pages/RoomsViewModel.cs:298 | two pieces of equipment of one type are walked in name order |
| RoomsViewModel.EquipementChoicesKinds | ReserV6/ViewModels/Pages/RoomsViewModel.cs:296-309 | the choices come from the equipment, cover every type and hold no type twice |
| RoomsViewModel.EquipementChoicesFirst | ReserV6/ViewModels/Pages/RoomsViewModel.cs:296-305 | the choice of each type has the smallest name among the equipment of that type |
| RoomsViewModel.FirstOfEachType | ReserV6/ViewModels/Pages/RoomsViewModel.cs:296-305 | the dictionary loop keeps the first piece of each type, in walking order |
| RoomsViewModel.Unchecked | ReserV6/ViewModels/Pages/RoomsViewModel.cs:307-309 | one unchecked selection item per piece of equipment, in order |
| RoomsViewModel.CheckedSpec | ReserV6/ViewModels/Pages/RoomsViewModel.cs:398-401 | the selected equipment are exactly those of the checked items, one per checked item |
| RoomsViewModel.NoneChecked | ReserV6/ViewModels/Pages/RoomsViewModel.cs:398-401 | with no item checked nothing is selected |
| RoomsViewModel.RoomsViewModel.constructor | ReserV6/ViewModels/Pages/RoomsViewModel.cs:12-44 | empty lists, blank criteria, floor options "all floors" only, nothing selected |
| RoomsViewModel.RoomsViewModel.ApplyFilters | ReserV6/ViewModels/Pages/RoomsViewModel.cs:79-173 | a completed filter pass sets the shown rooms to the filter of the catalogue by the current criteria |
| RoomsViewModel.RoomsViewModel.SetSearchText | ReserV6/ViewModels/Pages/RoomsViewModel.cs:424-429 | a changed search text re-runs the filter; an unchanged one leaves the list alone |
| RoomsViewModel.RoomsViewModel.SetMinCapacity | ReserV6/ViewModels/Pages/RoomsViewModel.cs:434-439 | a changed minimum capacity re-runs the filter; an unchanged one leaves the list alone |
| RoomsViewModel.RoomsViewModel.SetSelectedFloor | ReserV6/ViewModels/Pages/RoomsViewModel.cs:444-449 | a changed floor re-runs the filter; an unchanged one leaves the list alone |
| RoomsViewModel.RoomsViewModel.SyncSelectedEquipements | ReserV6/ViewModels/Pages/RoomsViewModel.cs:396-409 | afterwards the selected equipment are those of the checked items |
| RoomsViewModel.RoomsViewModel.SetItemSelected | ReserV6/ViewModels/Pages/RoomsViewModel.cs:360-367 | toggling a check box re-synchronises the selection and leaves the shown rooms as they are; setting it to its current value changes nothing |
| RoomsViewModel.RoomsViewModel.ClearEquipements | ReserV6/ViewModels/Pages/RoomsViewModel.cs:54-60 | every item unchecked, nothing selected, the items otherwise unchanged |
| RoomsViewModel.RoomsViewModel.ResetAllFilters | ReserV6/ViewModels/Pages/RoomsViewModel.cs:63-76 | blank criteria and every box unchecked; the last filter pass, if any, used the old equipment selection |
| RoomsViewModel.RoomsViewModel.Reserve | ReserV6/ViewModels/Pages/RoomsViewModel.cs:176-189 | a null room or a page not yet loaded does nothing; otherwise the room becomes the selected one |
| RoomsViewModel.RoomsViewModel.LoadData | ReserV6/ViewModels/Pages/RoomsViewModel.cs:235-327 | the page becomes the one AfterLoad gives, and the selection stays that of the checked items |
| RoomsViewModel.CatalogueLength | ReserV6/ViewModels/Pages/RoomsViewModel.cs:255-274 | the catalogue read by a load lists every room once |
| RoomsViewModel.AfterLoadNoRooms | ReserV6/ViewModels/Pages/RoomsViewModel.cs:274-320 | with no room, a load changes nothing |
| RoomsViewModel.AfterLoadRooms | ReserV6/ViewModels/Pages/RoomsViewModel.cs:274-313 | with rooms, all of them are shown whatever the criteria, with their floor options; with equipment too, the boxes become the unchecked choices and nothing is selected; with none, the boxes stay |
| RoomsViewModel.CatalogueFloorsOrdered | ReserV6/ViewModels/Pages/RoomsViewModel.cs:281-291 | after "all floors" the options are floors in strictly ascending order |
| RoomsViewModel.CatalogueFloorsMembers | ReserV6/ViewModels/Pages/RoomsViewModel.cs:281-291 | a floor is offered exactly when some stored room is on it |
| RoomsViewModel.CatalogueFloor | ReserV6/ViewModels/Pages/RoomsViewModel.cs:255-282 | a room of the catalogue is on a floor exactly when a stored room is |
| RoomsViewModel.OfferedChoicesFrom | ReserV6/ViewModels/Pages/RoomsViewModel.cs:307-311 | the offered boxes are unchecked, select nothing, and each holds stored equipment |
| RoomsViewModel.OfferedChoicesKinds | ReserV6/ViewModels/Pages/RoomsViewModel.cs:296-311 | the offered boxes hold one piece of every type and no type twice |
| RoomsViewModel.AfterLoadSynced | ReserV6/ViewModels/Pages/RoomsViewModel.cs:311 | a load keeps the selection equal to that of the checked items |
| RoomsViewModel.LoadPage | ReserV6/ViewModels/Pages/RoomsViewModel.cs:271-313 | the two loops of the load compute exactly AfterLoad |
| SallesGestionViewModel.EditTitle | ReserV6/ViewModels/Pages/SallesGestionViewModel.cs:198 | the edit form's title is the fixed "Éditer : " prefix followed by the room's name |
| SallesGestionViewModel.SearchResultSpec | ReserV6/ViewModels/Pages/SallesGestionViewModel.cs:404-428 | a blank text shows every loaded room; any other text shows, in order, exactly the rooms whose lower-cased name, description, type or equipment name, type or description contains the lower-cased text |
| SallesGestionViewModel.SearchCoversCatalogueSearch | ReserV6/ViewModels/Pages/SallesGestionViewModel.cs:414-421 | a room the catalogue page finds by name or description is found here as well |
| SallesGestionViewModel.SearchFindsByEquipement | ReserV6/ViewModels/Pages/SallesGestionViewModel.cs:419-421 | a room is found through one of its equipment alone |
| SallesGestionViewModel.RemoveFirstSpec | ReserV6/ViewModels/Pages/SallesGestionViewModel.cs:622-623 | removing an object drops exactly its first occurrence and keeps the order of the rest |
| SallesGestionViewModel.RemoveFirstAbsent | ReserV6/ViewModels/Pages/SallesGestionViewModel.cs:622-623 | removing an object the list does not hold changes nothing |
| SallesGestionViewModel.RemoveFirstUnique | ReserV6/ViewModels/Pages/SallesGestionViewModel.cs:622-623 | with unique ids, removal leaves no element with that id, keeps every other one, and keeps the ids unique |
| SallesGestionViewModel.EditedSalle | ReserV6/ViewModels/Pages/SallesGestionViewModel.cs:277-282 | writing the form into a room keeps its id, creation date and equipment |
| SallesGestionViewModel.EditRooms | ReserV6/ViewModels/Pages/SallesGestionViewModel.cs:277-282 | each room of a list is the edited one if it bears the edited id, and unchanged otherwise |
| SallesGestionViewModel.EditRoomsSpec | ReserV6/ViewModels/Pages/SallesGestionViewModel.cs:277-282 | writing the form keeps ids unique; the edited room holds every form value; every other room is unchanged |
| SallesGestionViewModel.SetRoomEquipements | ReserV6/ViewModels/Pages/SallesGestionViewModel.cs:533 | the room bearing the id gets the new equipment list wherever it is held; every other room is unchanged |
| SallesGestionViewModel.EditedEquipement | ReserV6/ViewModels/Pages/SallesGestionViewModel.cs:546-549 | writing the form into an equipment keeps its id, room and creation date |
| SallesGestionViewModel.EditEquipements | ReserV6/ViewModels/Pages/SallesGestionViewModel.cs:546-549 | each entry is the edited equipment if it bears its id, and unchanged otherwise |
| SallesGestionViewModel.EditEquipementsSpec | ReserV6/ViewModels/Pages/SallesGestionViewModel.cs:546-549 | the edit replaces exactly the entries with that id and adds or drops none; the edited value is held exactly when the id was |
| SallesGestionViewModel.SallesGestionViewModel.constructor | ReserV6/ViewModels/Pages/SallesGestionViewModel.cs:13-91 | empty lists, no selection, and the forms at their defaults (capacity 10, floor 1, available, working) |
| SallesGestionViewModel.SallesGestionViewModel.LoadData | ReserV6/ViewModels/Pages/SallesGestionViewModel.cs:104-142 | the loaded and displayed rooms are exactly the catalogue |
| SallesGestionViewModel.SallesGestionViewModel.AddNewSalle | ReserV6/ViewModels/Pages/SallesGestionViewModel.cs:148-164 | an empty room form at its defaults, no room selected, the add title, the form shown |
| SallesGestionViewModel.SallesGestionViewModel.EditSalle | ReserV6/ViewModels/Pages/SallesGestionViewModel.cs:170-200 | a null room changes nothing; otherwise the form holds the room's values, the room is selected and its equipment is shown |
| SallesGestionViewModel.SallesGestionViewModel.CancelForm | ReserV6/ViewModels/Pages/SallesGestionViewModel.cs:320-327 | the form is hidden and nothing is selected |
| SallesGestionViewModel.SallesGestionViewModel.NewSalle | ReserV6/ViewModels/Pages/SallesGestionViewModel.cs:242-251 | the room to create holds the form's values, the current time and no equipment |
| SallesGestionViewModel.SallesGestionViewModel.SaveSalle | ReserV6/ViewModels/Pages/SallesGestionViewModel.cs:206-314 | each outcome happens exactly under its condition: blank name, capacity not positive, no store, create, update. Each refusal changes nothing. A create stores the room under the next id with no description and appends it to the list. An update writes the form into the room wherever it is held, then stores it |
| SallesGestionViewModel.SallesGestionViewModel.DeleteSalle | ReserV6/ViewModels/Pages/SallesGestionViewModel.cs:333-398 | a null room, a declined confirmation or no store change nothing; otherwise the row is deleted, and on success the room leaves the lists and the form closes |
| SallesGestionViewModel.SallesGestionViewModel.SearchSalles | ReserV6/ViewModels/Pages/SallesGestionViewModel.cs:404-428 | the displayed list becomes the search result of the current text |
| SallesGestionViewModel.SallesGestionViewModel.SetSearchText | ReserV6/ViewModels/Pages/SallesGestionViewModel.cs:648-651 | a changed text runs the search; an unchanged one leaves the list alone |
| SallesGestionViewModel.SallesGestionViewModel.AddNewEquipement | ReserV6/ViewModels/Pages/SallesGestionViewModel.cs:434-456 | with no room selected nothing changes; otherwise an empty, working equipment form is shown |
| SallesGestionViewModel.SallesGestionViewModel.EditEquipement | ReserV6/ViewModels/Pages/SallesGestionViewModel.cs:462-478 | a null equipment changes nothing; otherwise the form holds its values and it is selected |
| SallesGestionViewModel.SallesGestionViewModel.CancelEquipementForm | ReserV6/ViewModels/Pages/SallesGestionViewModel.cs:586-590 | the equipment form is hidden |
| SallesGestionViewModel.SallesGestionViewModel.NewEquipement | ReserV6/ViewModels/Pages/SallesGestionViewModel.cs:518-526 | the equipment to create holds the form's values, the selected room and the current time |
| SallesGestionViewModel.SallesGestionViewModel.AttachToSelected | ReserV6/ViewModels/Pages/SallesGestionViewModel.cs:532-533 | the selected room gets the new equipment appended, wherever it is held |
| SallesGestionViewModel.SallesGestionViewModel.ResetEquipementForm | ReserV6/ViewModels/Pages/SallesGestionViewModel.cs:563-568 | the equipment form is cleared, set back to working, hidden, and nothing is selected |
| SallesGestionViewModel.SallesGestionViewModel.SaveEquipement | ReserV6/ViewModels/Pages/SallesGestionViewModel.cs:484-580 | each outcome happens exactly under its condition: no room, blank name, blank type, no store, create, update. A create stores the equipment under the next id and adds it to the room's lists. An update writes the form wherever the equipment is held, then stores it. Both then clear the whole form, description and working flag included. A refused or failed save leaves the form as it was. Without a store an edit stays written |
| SallesGestionViewModel.SallesGestionViewModel.DeleteEquipement | ReserV6/ViewModels/Pages/SallesGestionViewModel.cs:596-643 | no equipment or room, a declined confirmation or no store change nothing; otherwise the row is deleted, and on success the equipment leaves the displayed list and the room's list |
| SallesGestionViewModel.CreatedDescriptionNotStored | ReserV6/ViewModels/Pages/SallesGestionViewModel.cs:239-262 | a created room's description stays in the page's list, while the store reads the room back with none |
| SallesGestionViewModel.UpdateDropsSearch | ReserV6/ViewModels/Pages/SallesGestionViewModel.cs:288-291 | after a successful update every loaded room is shown again, including one the active search had hidden |
| Store.NextId | ReserV6/Services/Database/Repositories/SalleRepository.cs:231-236 | the id an insert hands back is positive and above every id in use |
| Store.AppendNextIdUnique | ReserV6/Services/Database/Repositories/SalleRepository.cs:222-236 | a row inserted under that id keeps the table's ids unique |
| Store.FindById | ReserV6/Services/Database/Repositories/SalleRepository.cs:66-70 | a row is found exactly when one has the id; the found row has it, and with unique ids it is the only one |
| Store.DeleteById | ReserV6/Services/Database/Repositories/SalleRepository.cs:278-281 | the rows left are exactly those with another id; the table shrinks exactly when a row had the id |
| Store.DeleteKeepsOthers | ReserV6/Services/Database/Repositories/SalleRepository.cs:278-281 | deleting one id keeps every other id present and adds none |

## Left out

- SQLite plumbing: connections, commands, readers, `DatabaseService` (files, init script, migrations, transactions), `RepositoryManager` caching and `ReservationSystemInitializer`. The store is the `Store.Database` object.
- `last_insert_rowid`: an insert takes one more than the largest id in use. SQLite may run a different sequence after deletions, which this does not model.
- The `v_reservations_completes` and `v_salles_equipements` views. Their SQL is not part of this model: the view rows are a parameter. The view is assumed to pass the status text through unchanged.
- Queries the core does not use, each with only column mapping:
  - `GetUserReservations`, `GetCompleteReservations`, `GetUpcomingConfirmedReservations`
  - `GetReservationHistory`, `GetDetailedReservationHistory`
  - `GetSallesWithEquipments`
  - every `UserRepository` member but `GetUserById`
  - `EquipementRepository.GetWorkingSalleEquipements`, `SetEquipementStatus` and `GetEquipementById`
- `HistoriqueRepository`'s delete path (HistoriqueRepository.cs:125-138): nothing in the core calls it, so the history is append-only here.
- Async work (`Task.Run`, `await`) and concurrency. Every command and handler runs to completion, in order.
- The catalogue page's debounce and the cancellation of an earlier filter run.
- One filter pass on the reservations page reads one `now` for every row.
- The UI: MessageBox calls and confirmations (a confirmation is a boolean parameter), WPF binding and observable-collection plumbing, the Views, and the dialog window itself. The room selected by `Reserve` is where the model stops.
- Exceptions and `try`/`catch`: a repository call without a store is an explicit `Failed`/`NoStore` outcome, and a thrown `ArgumentException` is an error result.
- Culture: `ToLower` lower-cases the ASCII and Latin-1 capital letters only, and `Contains` is ordinal. Other scripts, and the culture-dependent rules of .NET, are not modelled.
- LINQ `OrderBy` on strings, and SQLite's ORDER BY, compare code points. The culture-aware ordering of .NET is not modelled.
- Date and time formatting ("dd/MM/yyyy", "hh:mm") in messages takes a formatting function as a parameter.
- Object identity: a room or piece of equipment is identified by its id. An in-place edit of a shared object is applied to every element bearing its id. After a reload the source's selected room is still the object loaded before, which is no longer in the reloaded lists, so an edit saved after a reload changes only that stale object and the redisplayed list keeps the old values; the model applies the edit by id to the reloaded rooms, so its list shows the new values.
- Debug logging.
- RoomsViewModel.RoomsViewModel.ResetAllFilters: the model runs each setter's filter pass to completion before the check boxes are cleared, so its last pass uses the old equipment selection. In the program the search and capacity passes are deferred by the debounce and normally run after the boxes are cleared, and the floor pass races the clearing loop; that final filtering with the emptied selection is not captured.
- ReservationService.Rate: the rate is the exact rational percentage. C# `decimal` division rounds to 28-29 significant digits, so the program's value (33.3333333333333333333333333300 for 1 of 3) only approximates it and need not satisfy rate · total = confirmed · 100.
- ReservationService.GetRoomStatistics: its occupancy rate is `Rate`, so the same decimal rounding is not modelled.
- Ties in `ORDER BY`: SQLite fixes no order among rows with equal keys, and the model picks one of the orders it allows: a stable sort that keeps table order among ties. The contracts that state a result list element by element fix that choice: `ConflictResolutionService.GetConflictingReservations`, `ConflictResolutionService.GenerateConflictErrorMessage`, `ConflictResolutionService.GetSalleAvailabilityStatus`, `RoomsViewModel.RoomsViewModel.LoadData` with the `RoomsViewModel.AfterLoad` it is stated through and `SallesGestionViewModel.SallesGestionViewModel.LoadData`. The other contracts state only sortedness, membership or the multiset.
- The simple converters (`ReservationConverters.cs`, `AvailabilityConverters.cs`, `EquipementSelectedConverter.cs`): UI value mapping with no decisions of the core.
- `EXAMPLES.cs` and `CONFLICT_SERVICE_EXAMPLES.cs`: console drivers. The adjacent-slot scenario is the lemma `ConflictResolutionService.EdgeCases`.
- `NOT IN` over a nullable `creneau_id` in `GetAvailableCreneauxForSalle`. The model takes the intended set filter, not SQL's three-valued result when a row has no slot.
- The `int?` passed as `int` at ConflictResolutionService.cs:54 and ReservationService.cs:108: a missing slot is modelled as "no slot".
- The reservations page's checks for a missing repository manager are not modelled: the page is taken as loaded.
