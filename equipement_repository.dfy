/**
 * EquipementRepository: the equipment of the rooms. Plain column mapping; modelled for
 * the room queries and the room-management page that use it.
 */
module EquipementRepository {
  import opened Wrappers
  import opened Text
  import opened Seqs
  import opened ReservationSystemModels
  import opened Store

  /** `ORDER BY nom`, by code points. */
  function ByNom(e: Equipement): seq<int>
  {
    CodePoints(e.nom)
  }

  /** `GetSalleEquipements`: the room's equipment, ordered by name. */
  function GetSalleEquipements(eqs: seq<Equipement>, salleId: int): (r: seq<Equipement>)
    ensures forall e :: e in r <==> e in eqs && e.salleId == salleId
    ensures SortedByKey(r, ByNom)
  {
    FilterThenSort(eqs, (e: Equipement) => e.salleId == salleId, ByNom);
    SortByKey(Filter(eqs, (e: Equipement) => e.salleId == salleId), ByNom)
  }

  /** `ORDER BY salle_id, nom`. */
  function BySalleNom(e: Equipement): seq<int>
  {
    [e.salleId] + CodePoints(e.nom)
  }

  /** `GetAllEquipements`: every piece of equipment, by room and then name. */
  function GetAllEquipements(eqs: seq<Equipement>): (r: seq<Equipement>)
    ensures multiset(r) == multiset(eqs) && |r| == |eqs|
  {
    SortByKey(eqs, BySalleNom)
  }

  /** The listing is ordered by room, then by name. */
  lemma GetAllEquipementsSorted(eqs: seq<Equipement>)
    ensures SortedByKey(GetAllEquipements(eqs), BySalleNom)
  {
    SortSorted(eqs, BySalleNom);
  }

  /** `AddEquipement`: inserts under a fresh id, which it returns. */
  method AddEquipement(db: Database, e: Equipement) returns (id: int)
    modifies db`equipements
    ensures id == NextId(old(db.equipements), (x: Equipement) => x.id)
    ensures db.equipements == old(db.equipements) + [e.(id := id)]
  {
    id := NextId(db.equipements, (x: Equipement) => x.id);
    db.equipements := db.equipements + [e.(id := id)];
  }

  /** The table after `UpdateEquipement(e)`: all columns but `dateCreation` are written. */
  function UpdateEquipementRows(eqs: seq<Equipement>, e: Equipement): (r: seq<Equipement>)
    ensures |r| == |eqs|
    ensures forall i :: 0 <= i < |eqs| ==> r[i].id == eqs[i].id && r[i].dateCreation == eqs[i].dateCreation
    ensures forall i :: 0 <= i < |eqs| && eqs[i].id != e.id ==> r[i] == eqs[i]
    ensures forall i :: 0 <= i < |eqs| && eqs[i].id == e.id ==> r[i].(dateCreation := e.dateCreation) == e
  {
    seq(|eqs|, i requires 0 <= i < |eqs| =>
      if eqs[i].id == e.id then e.(dateCreation := eqs[i].dateCreation) else eqs[i])
  }

  /** `UpdateEquipement`. */
  method UpdateEquipement(db: Database, e: Equipement) returns (ok: bool)
    modifies db`equipements
    ensures ok <==> HasId(old(db.equipements), (x: Equipement) => x.id, e.id)
    ensures db.equipements == UpdateEquipementRows(old(db.equipements), e)
  {
    ok := FindById(db.equipements, (x: Equipement) => x.id, e.id).Some?;
    db.equipements := UpdateEquipementRows(db.equipements, e);
  }

  /** `DeleteEquipement`. */
  method DeleteEquipement(db: Database, id: int) returns (ok: bool)
    modifies db`equipements
    ensures ok <==> HasId(old(db.equipements), (x: Equipement) => x.id, id)
    ensures db.equipements == DeleteById(old(db.equipements), (x: Equipement) => x.id, id)
  {
    ok := FindById(db.equipements, (x: Equipement) => x.id, id).Some?;
    db.equipements := DeleteById(db.equipements, (x: Equipement) => x.id, id);
  }
}
