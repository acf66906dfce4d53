/**
 * ReservationsViewModel: the reservations page, which lists the `v_reservations_completes`
 * rows filtered by derived status, and its cancel and delete commands.
 */
module ReservationsViewModel {
  import opened Wrappers
  import opened Seqs
  import opened ReservationSystemModels
  import opened Store
  import RR = ReservationRepository
  import StatusService = ReservationStatusService
  import Converters = ReservationDynamicConverters
  import ReservationService

  /** The filter options offered by the page. */
  const StatusFilterOptions: seq<string> := ["Tous", "Confirmee", "EnCours", "Terminee", "Annulee"]

  /** The page's own copy of the status derivation, inside the `Where` of `ApplyStatusFilter`. */
  function PageStatus(r: ReservationComplete, now: int): string
  {
    if now >= r.CreneauFin() then "Terminee"
    else if now >= r.CreneauDebut() && now < r.CreneauFin() then "EnCours"
    else if r.statut == "Annulee" then "Annulee"
    else r.statut
  }

  /** It is the converters' derivation. */
  lemma PageStatusIsDerivedStatus(r: ReservationComplete, now: int)
    ensures PageStatus(r, now) == Converters.DerivedStatus(r, now)
  {
  }

  /** What `ApplyStatusFilter` assigns to `FilteredReservations`. */
  function StatusFiltered(rs: seq<ReservationComplete>, filter: string, now: int): seq<ReservationComplete>
  {
    if filter == "Tous" then rs else Filter(rs, (r: ReservationComplete) => PageStatus(r, now) == filter)
  }

  /** "Tous" shows everything; any other filter keeps, in order, exactly the rows whose
      derived status is the filter text. */
  lemma StatusFilteredSpec(rs: seq<ReservationComplete>, filter: string, now: int)
    ensures filter == "Tous" ==> StatusFiltered(rs, filter, now) == rs
    ensures filter != "Tous" ==>
      IsSubsequence(StatusFiltered(rs, filter, now), rs) &&
      forall r :: r in StatusFiltered(rs, filter, now) <==> r in rs && Converters.DerivedStatus(r, now) == filter
  {
    if filter != "Tous" {
      FilterIsSubsequence(rs, (r: ReservationComplete) => PageStatus(r, now) == filter);
    }
  }

  lemma UnaccentedOptionMissesRow(r: ReservationComplete, now: int, filter: string)
    requires exists s: Statut :: r.statut == s.Name()
    requires filter == "Confirmee" || filter == "Annulee"
    ensures PageStatus(r, now) != filter
  {
    var s: Statut :| r.statut == s.Name();
    assert "Confirmée"[7] != "Confirmee"[7] && "Annulée"[5] != "Annulee"[5];
  }

  /** Rows whose status is a stored name never match the "Confirmee" or "Annulee" options,
      which are spelt without the accents the stored names carry. */
  lemma UnaccentedOptionsMatchNothing(rs: seq<ReservationComplete>, now: int, filter: string)
    requires forall i :: 0 <= i < |rs| ==> exists s: Statut :: rs[i].statut == s.Name()
    requires filter == "Confirmee" || filter == "Annulee"
    ensures StatusFiltered(rs, filter, now) == []
  {
    var p := (r: ReservationComplete) => PageStatus(r, now) == filter;
    forall i | 0 <= i < |rs| ensures !p(rs[i]) {
      UnaccentedOptionMissesRow(rs[i], now, filter);
    }
    assert Count(rs, p) == 0;
  }

  class ReservationsViewModel {
    var reservations: seq<ReservationComplete>
    var selectedStatusFilter: string
    var filteredReservations: seq<ReservationComplete>

    constructor()
      ensures reservations == [] && selectedStatusFilter == "Tous" && filteredReservations == []
    {
      reservations := [];
      selectedStatusFilter := "Tous";
      filteredReservations := [];
    }

    /** `ApplyStatusFilter` (the current time is a parameter). */
    method ApplyStatusFilter(now: int)
      modifies this`filteredReservations
      ensures filteredReservations == StatusFiltered(reservations, selectedStatusFilter, now)
    {
      var filter := selectedStatusFilter;
      var filtered := reservations;
      if filter != "Tous" {
        filtered := Filter(filtered, (r: ReservationComplete) => PageStatus(r, now) == filter);
      }
      filteredReservations := filtered;
    }

    /** Assigning `Reservations`: a new list always raises `OnReservationsChanged`, which
        reapplies the filter. */
    method SetReservations(rs: seq<ReservationComplete>, now: int)
      modifies this`reservations, this`filteredReservations
      ensures reservations == rs
      ensures filteredReservations == StatusFiltered(rs, selectedStatusFilter, now)
    {
      reservations := rs;
      ApplyStatusFilter(now);
    }

    /** Assigning `SelectedStatusFilter`: the change handler runs only when the text differs. */
    method SetSelectedStatusFilter(filter: string, now: int)
      modifies this`selectedStatusFilter, this`filteredReservations
      ensures selectedStatusFilter == filter
      ensures filter != old(selectedStatusFilter) ==> filteredReservations == StatusFiltered(reservations, filter, now)
      ensures filter == old(selectedStatusFilter) ==> filteredReservations == old(filteredReservations)
    {
      if filter != selectedStatusFilter {
        selectedStatusFilter := filter;
        ApplyStatusFilter(now);
      }
    }

    /** `LoadDataAsync`: run the status pass, then show the view rows (`complete`, read after
        the pass) unless there are none, in which case the old list stays. */
    method LoadData(db: Database, complete: seq<ReservationComplete>, now: int)
      modifies db`reservations, this`reservations, this`filteredReservations
      ensures db.reservations == StatusService.ApplyUpdates(old(db.reservations), RR.GetAllReservations(old(db.reservations)), now)
      ensures |complete| > 0 ==>
        reservations == complete && filteredReservations == StatusFiltered(complete, selectedStatusFilter, now)
      ensures |complete| == 0 ==> reservations == old(reservations) && filteredReservations == old(filteredReservations)
    {
      var _ := StatusService.UpdateAllReservationStatuses(db, now);
      if |complete| > 0 {
        SetReservations(complete, now);
      }
    }

    /** The cancel command (`confirmed` is the answer to the confirmation box; `complete` the
        view rows read by the reload): it writes Annulée straight away, with none of the
        service's guards, and reloads on success. */
    method CancelReservation(db: Database, reservation: Option<ReservationComplete>, confirmed: bool,
                             complete: seq<ReservationComplete>, now: int) returns (updated: bool)
      modifies db`reservations, this`reservations, this`filteredReservations
      ensures reservation.None? || !confirmed ==>
        !updated && db.reservations == old(db.reservations) && reservations == old(reservations) &&
        filteredReservations == old(filteredReservations)
      ensures reservation.Some? && confirmed ==>
        updated == HasId(old(db.reservations), (x: Row) => x.id, reservation.value.id)
      ensures reservation.Some? && confirmed && !updated ==>
        db.reservations == RR.SetStatut(old(db.reservations), reservation.value.id, Annulee.Name()) &&
        reservations == old(reservations) && filteredReservations == old(filteredReservations)
      ensures reservation.Some? && confirmed && updated ==>
        var cancelled := RR.SetStatut(old(db.reservations), reservation.value.id, Annulee.Name());
        db.reservations == StatusService.ApplyUpdates(cancelled, RR.GetAllReservations(cancelled), now) &&
        (|complete| > 0 ==> reservations == complete && filteredReservations == StatusFiltered(complete, selectedStatusFilter, now)) &&
        (|complete| == 0 ==> reservations == old(reservations) && filteredReservations == old(filteredReservations))
    {
      if reservation.None? || !confirmed {
        return false;
      }
      updated := StatusService.UpdateReservationStatus(db, reservation.value.id, Annulee);
      if updated {
        LoadData(db, complete, now);
      }
    }

    /** The delete command: removes the row, and reloads on success. */
    method DeleteReservation(db: Database, reservation: Option<ReservationComplete>, confirmed: bool,
                             complete: seq<ReservationComplete>, now: int) returns (deleted: bool)
      modifies db`reservations, this`reservations, this`filteredReservations
      ensures reservation.None? || !confirmed ==>
        !deleted && db.reservations == old(db.reservations) && reservations == old(reservations) &&
        filteredReservations == old(filteredReservations)
      ensures reservation.Some? && confirmed ==>
        deleted == HasId(old(db.reservations), (x: Row) => x.id, reservation.value.id)
      ensures reservation.Some? && confirmed && !deleted ==>
        db.reservations == DeleteById(old(db.reservations), (x: Row) => x.id, reservation.value.id) &&
        reservations == old(reservations) && filteredReservations == old(filteredReservations)
      ensures reservation.Some? && confirmed && deleted ==>
        var remaining := DeleteById(old(db.reservations), (x: Row) => x.id, reservation.value.id);
        db.reservations == StatusService.ApplyUpdates(remaining, RR.GetAllReservations(remaining), now) &&
        (|complete| > 0 ==> reservations == complete && filteredReservations == StatusFiltered(complete, selectedStatusFilter, now)) &&
        (|complete| == 0 ==> reservations == old(reservations) && filteredReservations == old(filteredReservations))
    {
      if reservation.None? || !confirmed {
        return false;
      }
      deleted := RR.DeleteReservation(db, reservation.value.id);
      if deleted {
        LoadData(db, complete, now);
      }
    }
  }

  /** Unlike the service's cancellation, the page's command also cancels a finished
      reservation: the row is rewritten as Annulée where the service would refuse. */
  lemma CancelCommandSkipsGuards(rows: seq<Row>, k: int)
    requires 0 <= k < |rows| && UniqueIds(rows, (x: Row) => x.id)
    requires rows[k].statut == Terminee.Name()
    ensures ReservationService.CancelCheck(rows, rows[k].id) == Some("Impossible d'annuler une réservation terminée")
    ensures RR.SetStatut(rows, rows[k].id, Annulee.Name())[k].statut == "Annulée"
  {
    var id := rows[k].id;
    assert HasId(rows, (x: Row) => x.id, id);
    var r := RR.GetReservationById(rows, id);
    var i :| 0 <= i < |rows| && r.value == RR.FromRow(rows[i]);
    assert rows[i].id == id;
    assert i == k;
    RR.ParseCases(rows[k].statut);
  }
}
