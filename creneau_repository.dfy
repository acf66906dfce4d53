/**
 * CreneauRepository: the catalogue of predefined time slots.
 */
module CreneauRepository {
  import opened Wrappers
  import opened Seqs
  import opened ReservationSystemModels
  import opened Store

  /** `ORDER BY debut`. */
  function ByDebut(c: Creneau): seq<int>
  {
    [c.debut]
  }

  /** Slots ordered by their start instant. */
  predicate OrderedByDebut(cs: seq<Creneau>)
  {
    forall i, j :: 0 <= i < j < |cs| ==> cs[i].debut <= cs[j].debut
  }

  lemma SortedByDebut(cs: seq<Creneau>)
    requires SortedByKey(cs, ByDebut)
    ensures OrderedByDebut(cs)
  {
    forall i, j | 0 <= i < j < |cs| ensures cs[i].debut <= cs[j].debut {
      LexLeSingle(cs[i].debut, cs[j].debut);
    }
  }

  /** `GetAllCreneaux`: every slot, ordered by start. */
  function GetAllCreneaux(cs: seq<Creneau>): (r: seq<Creneau>)
    ensures multiset(r) == multiset(cs) && |r| == |cs|
    ensures OrderedByDebut(r)
  {
    SortSorted(cs, ByDebut);
    SortedByDebut(SortByKey(cs, ByDebut));
    SortByKey(cs, ByDebut)
  }

  /** `GetCreneauById`. */
  function GetCreneauById(cs: seq<Creneau>, id: int): (r: Option<Creneau>)
    ensures r.Some? <==> HasId(cs, (c: Creneau) => c.id, id)
    ensures r.Some? ==> r.value in cs && r.value.id == id
  {
    FindById(cs, (c: Creneau) => c.id, id)
  }

  /** `WHERE debut >= @debut AND fin <= @fin`: the slot lies within the period. */
  predicate WithinPeriod(c: Creneau, debut: int, fin: int)
  {
    c.debut >= debut && c.fin <= fin
  }

  /** `GetCreneauxByPeriod`: exactly the slots contained in [debut, fin], ordered by start. */
  function GetCreneauxByPeriod(cs: seq<Creneau>, debut: int, fin: int): (r: seq<Creneau>)
    ensures forall c :: c in r <==> c in cs && debut <= c.debut && c.fin <= fin
    ensures OrderedByDebut(r)
  {
    var p := (c: Creneau) => WithinPeriod(c, debut, fin);
    FilterThenSort(cs, p, ByDebut);
    SortedByDebut(SortByKey(Filter(cs, p), ByDebut));
    SortByKey(Filter(cs, p), ByDebut)
  }

  /** The status texts of the subquery of `GetAvailableCreneauxForSalle`. */
  predicate HoldsSlot(statut: string)
  {
    statut == "En attente" || statut == "Confirmée"
  }

  /** Some reservation of the room with a holding status references the slot. */
  predicate SlotTaken(rows: seq<Row>, salleId: int, creneauId: int)
  {
    exists i :: 0 <= i < |rows| && rows[i].salleId == salleId && HoldsSlot(rows[i].statut) &&
      rows[i].creneauId == Some(creneauId)
  }

  /** `GetAvailableCreneauxForSalle`, read as a set difference: the slots no holding
      reservation of the room references, ordered by start. */
  function GetAvailableCreneauxForSalle(cs: seq<Creneau>, rows: seq<Row>, salleId: int): (r: seq<Creneau>)
    ensures forall c :: c in r <==> c in cs && !SlotTaken(rows, salleId, c.id)
    ensures OrderedByDebut(r)
  {
    var p := (c: Creneau) => !SlotTaken(rows, salleId, c.id);
    FilterThenSort(cs, p, ByDebut);
    SortedByDebut(SortByKey(Filter(cs, p), ByDebut));
    SortByKey(Filter(cs, p), ByDebut)
  }

  /** Of the stored names only Confirmée holds a slot here: a reservation stored as
      EnAttente ("EnAttente", not "En attente") leaves its slot listed as available. */
  lemma {:induction false} HoldsSlotOfName(s: Statut)
    ensures HoldsSlot(s.Name()) <==> s == Confirmee
  {
    NameInjective(s, Confirmee);
  }

  /** The WHERE clause of `HasOverlap`. */
  predicate OverlapRow(c: Creneau, debut: int, fin: int, exclude: Option<int>)
  {
    c.debut < fin && c.fin > debut && (exclude.None? || c.id != exclude.value)
  }

  /** `HasOverlap`. */
  function HasOverlap(cs: seq<Creneau>, debut: int, fin: int, exclude: Option<int>): (b: bool)
    ensures b <==> exists i :: 0 <= i < |cs| && OverlapRow(cs[i], debut, fin, exclude)
  {
    Count(cs, (c: Creneau) => OverlapRow(c, debut, fin, exclude)) > 0
  }

  /** Slots meeting the request only at an endpoint do not overlap it. */
  lemma TouchingSlotsDoNotOverlap(c: Creneau, debut: int, fin: int, exclude: Option<int>)
    requires c.fin == debut || c.debut == fin
    requires c.debut <= c.fin && debut <= fin
    ensures !OverlapRow(c, debut, fin, exclude)
  {
  }

  /** The overlap relation is symmetric: the request overlaps the slot exactly when the slot,
      taken as a request, overlaps the request taken as a slot. */
  lemma OverlapSymmetric(c: Creneau, d: Creneau)
    requires c.id != d.id
    ensures OverlapRow(c, d.debut, d.fin, Some(d.id)) <==> OverlapRow(d, c.debut, c.fin, Some(c.id))
  {
  }

  /** `AddCreneau`: inserts a slot under a fresh id, which it returns. */
  method AddCreneau(db: Database, c: Creneau) returns (id: int)
    modifies db`creneaux
    ensures id == NextId(old(db.creneaux), (x: Creneau) => x.id)
    ensures db.creneaux == old(db.creneaux) + [c.(id := id)]
  {
    id := NextId(db.creneaux, (x: Creneau) => x.id);
    db.creneaux := db.creneaux + [c.(id := id)];
  }

  /** The table after `UPDATE Creneau SET debut = @debut, fin = @fin WHERE id = @id`. */
  function UpdateSlots(cs: seq<Creneau>, c: Creneau): (r: seq<Creneau>)
    ensures |r| == |cs|
    ensures forall i :: 0 <= i < |cs| ==> r[i].id == cs[i].id && r[i].dateCreation == cs[i].dateCreation
    ensures forall i :: 0 <= i < |cs| && cs[i].id != c.id ==> r[i] == cs[i]
    ensures forall i :: 0 <= i < |cs| && cs[i].id == c.id ==> r[i].debut == c.debut && r[i].fin == c.fin
  {
    seq(|cs|, i requires 0 <= i < |cs| => if cs[i].id == c.id then cs[i].(debut := c.debut, fin := c.fin) else cs[i])
  }

  /** `UpdateCreneau`. */
  method UpdateCreneau(db: Database, c: Creneau) returns (ok: bool)
    modifies db`creneaux
    ensures ok <==> HasId(old(db.creneaux), (x: Creneau) => x.id, c.id)
    ensures db.creneaux == UpdateSlots(old(db.creneaux), c)
  {
    ok := FindById(db.creneaux, (x: Creneau) => x.id, c.id).Some?;
    db.creneaux := UpdateSlots(db.creneaux, c);
  }

  /** `DeleteCreneau`. */
  method DeleteCreneau(db: Database, id: int) returns (ok: bool)
    modifies db`creneaux
    ensures ok <==> HasId(old(db.creneaux), (x: Creneau) => x.id, id)
    ensures db.creneaux == DeleteById(old(db.creneaux), (x: Creneau) => x.id, id)
  {
    ok := FindById(db.creneaux, (x: Creneau) => x.id, id).Some?;
    db.creneaux := DeleteById(db.creneaux, (x: Creneau) => x.id, id);
  }
}
