/**
 * HistoriqueRepository: the audit trail of reservations, an append-only table here.
 */
module HistoriqueRepository {
  import opened ReservationSystemModels
  import opened Store

  /** `AddAction`: appends `action` for the reservation, dated `now`, and returns its id. */
  method AddAction(db: Database, reservationId: int, action: string, now: int) returns (id: int)
    modifies db`historique
    ensures id == NextId(old(db.historique), (h: Historique) => h.id)
    ensures db.historique == old(db.historique) + [Historique(id, action, now, reservationId)]
  {
    id := NextId(db.historique, (h: Historique) => h.id);
    db.historique := db.historique + [Historique(id, action, now, reservationId)];
  }
}
