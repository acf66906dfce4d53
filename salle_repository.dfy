/**
 * SalleRepository: the room queries. Each list query is a WHERE filter and an
 * ORDER BY over the Salle table, followed by a loop that loads every returned
 * room's own equipment.
 */
module SalleRepository {
  import opened Wrappers
  import opened Text
  import opened Seqs
  import opened ReservationSystemModels
  import opened Store
  import EquipementRepository

  /** `ORDER BY etage, nom`. */
  function ByEtageNom(s: Salle): seq<int>
  {
    [s.etage] + CodePoints(s.nom)
  }

  /** `ORDER BY nom`. */
  function ByNom(s: Salle): seq<int>
  {
    CodePoints(s.nom)
  }

  /** `ORDER BY etage, capacite`. */
  function ByEtageCapacite(s: Salle): seq<int>
  {
    [s.etage, s.capacite]
  }

  /** A room as returned by a query: its `Equipements` replaced by its own equipment. */
  function Load(s: Salle, eqs: seq<Equipement>): (r: Salle)
    ensures r.(equipements := s.equipements) == s
    ensures forall e :: e in r.equipements <==> e in eqs && e.salleId == s.id
  {
    s.(equipements := EquipementRepository.GetSalleEquipements(eqs, s.id))
  }

  /** The rooms of a result list, each with its own equipment. */
  function LoadAll(ss: seq<Salle>, eqs: seq<Equipement>): (r: seq<Salle>)
    ensures |r| == |ss|
    ensures forall i :: 0 <= i < |ss| ==> r[i] == Load(ss[i], eqs)
  {
    seq(|ss|, i requires 0 <= i < |ss| => Load(ss[i], eqs))
  }

  /** The loop `foreach (var salle in salles) salle.Equipements = GetSalleEquipements(salle.Id)`. */
  method AttachEquipements(salles: seq<Salle>, eqs: seq<Equipement>) returns (r: seq<Salle>)
    ensures r == LoadAll(salles, eqs)
    ensures forall i :: 0 <= i < |r| ==>
      r[i].id == salles[i].id && (forall e :: e in r[i].equipements <==> e in eqs && e.salleId == r[i].id)
  {
    r := [];
    var i := 0;
    while i < |salles|
      invariant 0 <= i <= |salles|
      invariant r == LoadAll(salles[..i], eqs)
    {
      r := r + [Load(salles[i], eqs)];
      i := i + 1;
      assert salles[..i] == salles[..i - 1] + [salles[i - 1]];
    }
    assert salles[..i] == salles;
  }

  /** A list query: `WHERE p ORDER BY key`, then each room's equipment. */
  function Query(ss: seq<Salle>, eqs: seq<Equipement>, p: Salle -> bool, key: Salle -> seq<int>): seq<Salle>
  {
    LoadAll(SortByKey(Filter(ss, p), key), eqs)
  }

  /** `x` is a room of `ss` passing `p`, loaded with its equipment. */
  predicate LoadedFrom(x: Salle, ss: seq<Salle>, eqs: seq<Equipement>, p: Salle -> bool)
  {
    exists k :: 0 <= k < |ss| && p(ss[k]) && x == Load(ss[k], eqs)
  }

  /** A query returns, with its own equipment, exactly the rooms that pass the filter. */
  lemma QueryMembers(ss: seq<Salle>, eqs: seq<Equipement>, p: Salle -> bool, key: Salle -> seq<int>)
    ensures forall s :: s in ss && p(s) ==> Load(s, eqs) in Query(ss, eqs, p, key)
    ensures forall i :: 0 <= i < |Query(ss, eqs, p, key)| ==> LoadedFrom(Query(ss, eqs, p, key)[i], ss, eqs, p)
  {
    var t := SortByKey(Filter(ss, p), key);
    FilterThenSort(ss, p, key);
    var r := LoadAll(t, eqs);
    forall s | s in ss && p(s) ensures Load(s, eqs) in r {
      var k :| 0 <= k < |t| && t[k] == s;
      assert r[k] == Load(s, eqs);
    }
    forall i | 0 <= i < |r| ensures LoadedFrom(r[i], ss, eqs, p) {
      assert t[i] in t;
      var k :| 0 <= k < |ss| && ss[k] == t[i];
      assert p(ss[k]) && r[i] == Load(ss[k], eqs);
    }
    assert r == Query(ss, eqs, p, key);
  }

  /** Loading equipment keeps a query's order, since no key reads the equipment. */
  lemma QuerySorted(ss: seq<Salle>, eqs: seq<Equipement>, p: Salle -> bool, key: Salle -> seq<int>)
    requires forall s: Salle, q: seq<Equipement> :: key(s.(equipements := q)) == key(s)
    ensures SortedByKey(Query(ss, eqs, p, key), key)
  {
    var t := SortByKey(Filter(ss, p), key);
    FilterThenSort(ss, p, key);
    var r := LoadAll(t, eqs);
    forall i, j | 0 <= i < j < |r| ensures LexLe(key(r[i]), key(r[j])) {
      assert key(r[i]) == key(t[i]) && key(r[j]) == key(t[j]);
    }
  }

  /** Floor then name order on keys [etage] + name. */
  lemma EtageNomOrder(a: Salle, b: Salle)
    requires LexLe(ByEtageNom(a), ByEtageNom(b))
    ensures a.etage <= b.etage
    ensures a.etage == b.etage ==> LexLe(CodePoints(a.nom), CodePoints(b.nom))
  {
    assert ByEtageNom(a)[1..] == CodePoints(a.nom);
    assert ByEtageNom(b)[1..] == CodePoints(b.nom);
  }

  /** `GetAllSalles`. */
  function GetAllSalles(ss: seq<Salle>, eqs: seq<Equipement>): seq<Salle>
  {
    Query(ss, eqs, (s: Salle) => true, ByEtageNom)
  }

  /** Every room once, each with its own equipment, by floor and then name. */
  lemma GetAllSallesSpec(ss: seq<Salle>, eqs: seq<Equipement>)
    ensures var r := GetAllSalles(ss, eqs);
      |r| == |ss| &&
      (forall s :: s in ss ==> Load(s, eqs) in r) &&
      (forall i :: 0 <= i < |r| ==> LoadedFrom(r[i], ss, eqs, (s: Salle) => true)) &&
      (forall i, j :: 0 <= i < j < |r| ==>
        r[i].etage <= r[j].etage && (r[i].etage == r[j].etage ==> LexLe(CodePoints(r[i].nom), CodePoints(r[j].nom))))
  {
    var p := (s: Salle) => true;
    FilterAll(ss, p);
    QueryMembers(ss, eqs, p, ByEtageNom);
    QuerySorted(ss, eqs, p, ByEtageNom);
    var r := GetAllSalles(ss, eqs);
    forall i, j | 0 <= i < j < |r| ensures r[i].etage <= r[j].etage &&
      (r[i].etage == r[j].etage ==> LexLe(CodePoints(r[i].nom), CodePoints(r[j].nom))) {
      EtageNomOrder(r[i], r[j]);
    }
  }

  /** With no filter, the catalogue is the whole table sorted by floor and name, loaded. */
  lemma GetAllSallesSorted(ss: seq<Salle>, eqs: seq<Equipement>)
    ensures GetAllSalles(ss, eqs) == LoadAll(SortByKey(ss, ByEtageNom), eqs)
  {
    FilterAll(ss, (s: Salle) => true);
  }

  /** `GetSalleById`: the room with its own equipment. */
  function GetSalleById(ss: seq<Salle>, eqs: seq<Equipement>, id: int): (r: Option<Salle>)
    ensures r.Some? <==> HasId(ss, (s: Salle) => s.id, id)
    ensures r.Some? ==>
      r.value.id == id && (forall e :: e in r.value.equipements <==> e in eqs && e.salleId == id)
  {
    match FindById(ss, (s: Salle) => s.id, id)
    case None => None
    case Some(s) => Some(Load(s, eqs))
  }

  /** `GetAvailableSalles`: `WHERE disponibilite = 1 ORDER BY etage, nom`. */
  function GetAvailableSalles(ss: seq<Salle>, eqs: seq<Equipement>): seq<Salle>
  {
    Query(ss, eqs, (s: Salle) => s.disponibilite, ByEtageNom)
  }

  /** Exactly the available rooms, by floor and then name. */
  lemma GetAvailableSallesSpec(ss: seq<Salle>, eqs: seq<Equipement>)
    ensures var r := GetAvailableSalles(ss, eqs);
      (forall s :: s in ss && s.disponibilite ==> Load(s, eqs) in r) &&
      (forall i :: 0 <= i < |r| ==> r[i].disponibilite && LoadedFrom(r[i], ss, eqs, (s: Salle) => true)) &&
      (forall i, j :: 0 <= i < j < |r| ==>
        r[i].etage <= r[j].etage && (r[i].etage == r[j].etage ==> LexLe(CodePoints(r[i].nom), CodePoints(r[j].nom))))
  {
    var p := (s: Salle) => s.disponibilite;
    QueryMembers(ss, eqs, p, ByEtageNom);
    QuerySorted(ss, eqs, p, ByEtageNom);
    var r := GetAvailableSalles(ss, eqs);
    forall i, j | 0 <= i < j < |r| ensures r[i].etage <= r[j].etage &&
      (r[i].etage == r[j].etage ==> LexLe(CodePoints(r[i].nom), CodePoints(r[j].nom))) {
      EtageNomOrder(r[i], r[j]);
    }
  }

  /** `GetSallesByFloor`: `WHERE etage = @etage ORDER BY nom`. */
  function GetSallesByFloor(ss: seq<Salle>, eqs: seq<Equipement>, etage: int): seq<Salle>
  {
    Query(ss, eqs, (s: Salle) => s.etage == etage, ByNom)
  }

  /** Exactly the rooms of that floor, by name. */
  lemma GetSallesByFloorSpec(ss: seq<Salle>, eqs: seq<Equipement>, etage: int)
    ensures var r := GetSallesByFloor(ss, eqs, etage);
      (forall s :: s in ss && s.etage == etage ==> Load(s, eqs) in r) &&
      (forall i :: 0 <= i < |r| ==> r[i].etage == etage && LoadedFrom(r[i], ss, eqs, (s: Salle) => true)) &&
      (forall i, j :: 0 <= i < j < |r| ==> LexLe(CodePoints(r[i].nom), CodePoints(r[j].nom)))
  {
    QueryMembers(ss, eqs, (s: Salle) => s.etage == etage, ByNom);
    QuerySorted(ss, eqs, (s: Salle) => s.etage == etage, ByNom);
  }

  /** `GetSallesByCapacity`: `WHERE disponibilite = 1 AND capacite >= @min ORDER BY etage, capacite`. */
  function GetSallesByCapacity(ss: seq<Salle>, eqs: seq<Equipement>, minCapacity: int): seq<Salle>
  {
    Query(ss, eqs, (s: Salle) => s.disponibilite && s.capacite >= minCapacity, ByEtageCapacite)
  }

  /** Exactly the available rooms holding at least `minCapacity`, by floor then capacity. */
  lemma GetSallesByCapacitySpec(ss: seq<Salle>, eqs: seq<Equipement>, minCapacity: int)
    ensures var r := GetSallesByCapacity(ss, eqs, minCapacity);
      (forall s :: s in ss && s.disponibilite && s.capacite >= minCapacity ==> Load(s, eqs) in r) &&
      (forall i :: 0 <= i < |r| ==>
        r[i].disponibilite && r[i].capacite >= minCapacity && LoadedFrom(r[i], ss, eqs, (s: Salle) => true)) &&
      (forall i, j :: 0 <= i < j < |r| ==>
        r[i].etage < r[j].etage || (r[i].etage == r[j].etage && r[i].capacite <= r[j].capacite))
  {
    var p := (s: Salle) => s.disponibilite && s.capacite >= minCapacity;
    QueryMembers(ss, eqs, p, ByEtageCapacite);
    QuerySorted(ss, eqs, p, ByEtageCapacite);
    var r := GetSallesByCapacity(ss, eqs, minCapacity);
    forall i, j | 0 <= i < j < |r| ensures r[i].etage < r[j].etage ||
        (r[i].etage == r[j].etage && r[i].capacite <= r[j].capacite) {
      LexLePair(r[i].etage, r[i].capacite, r[j].etage, r[j].capacite);
    }
  }

  /** The status texts of the subquery of `GetAvailableSallesForPeriod`. */
  predicate HoldsRoom(statut: string)
  {
    statut == "En attente" || statut == "Confirmée"
  }

  /** The subquery: some holding reservation of the room has a slot (joined on `creneau_id`)
      with `debut < @fin AND fin > @debut`. Rows without a slot drop out of the join. */
  predicate BookedDuring(rows: seq<Row>, cs: seq<Creneau>, salleId: int, debut: int, fin: int)
  {
    exists i, j :: 0 <= i < |rows| && 0 <= j < |cs| &&
      rows[i].salleId == salleId && HoldsRoom(rows[i].statut) &&
      rows[i].creneauId == Some(cs[j].id) && cs[j].debut < fin && cs[j].fin > debut
  }

  /** `GetAvailableSallesForPeriod`. */
  function GetAvailableSallesForPeriod(ss: seq<Salle>, eqs: seq<Equipement>, rows: seq<Row>, cs: seq<Creneau>,
                                       debut: int, fin: int): seq<Salle>
  {
    Query(ss, eqs, (s: Salle) => s.disponibilite && !BookedDuring(rows, cs, s.id, debut, fin), ByEtageNom)
  }

  /** Exactly the available rooms with no holding slot booking overlapping the period, by floor and name. */
  lemma GetAvailableSallesForPeriodSpec(ss: seq<Salle>, eqs: seq<Equipement>, rows: seq<Row>, cs: seq<Creneau>,
                                        debut: int, fin: int)
    ensures var r := GetAvailableSallesForPeriod(ss, eqs, rows, cs, debut, fin);
      (forall s :: s in ss && s.disponibilite && !BookedDuring(rows, cs, s.id, debut, fin) ==> Load(s, eqs) in r) &&
      (forall i :: 0 <= i < |r| ==>
        r[i].disponibilite && !BookedDuring(rows, cs, r[i].id, debut, fin) && LoadedFrom(r[i], ss, eqs, (s: Salle) => true)) &&
      (forall i, j :: 0 <= i < j < |r| ==>
        r[i].etage <= r[j].etage && (r[i].etage == r[j].etage ==> LexLe(CodePoints(r[i].nom), CodePoints(r[j].nom))))
  {
    var p := (s: Salle) => s.disponibilite && !BookedDuring(rows, cs, s.id, debut, fin);
    QueryMembers(ss, eqs, p, ByEtageNom);
    QuerySorted(ss, eqs, p, ByEtageNom);
    var r := GetAvailableSallesForPeriod(ss, eqs, rows, cs, debut, fin);
    forall i, j | 0 <= i < j < |r| ensures r[i].etage <= r[j].etage &&
      (r[i].etage == r[j].etage ==> LexLe(CodePoints(r[i].nom), CodePoints(r[j].nom))) {
      EtageNomOrder(r[i], r[j]);
    }
    forall i | 0 <= i < |r| ensures r[i].disponibilite && !BookedDuring(rows, cs, r[i].id, debut, fin) {
      assert LoadedFrom(r[i], ss, eqs, p);
      var k :| 0 <= k < |ss| && p(ss[k]) && r[i] == Load(ss[k], eqs);
    }
  }

  /** A reservation without a slot (a custom-range booking) never makes a room unavailable here. */
  lemma SlotlessIgnored(rows: seq<Row>, row: Row, cs: seq<Creneau>, salleId: int, debut: int, fin: int)
    requires row.creneauId.None?
    ensures BookedDuring(rows + [row], cs, salleId, debut, fin) <==> BookedDuring(rows, cs, salleId, debut, fin)
  {
    var rs := rows + [row];
    if BookedDuring(rs, cs, salleId, debut, fin) {
      var i, j :| 0 <= i < |rs| && 0 <= j < |cs| &&
        rs[i].salleId == salleId && HoldsRoom(rs[i].statut) &&
        rs[i].creneauId == Some(cs[j].id) && cs[j].debut < fin && cs[j].fin > debut;
      assert i < |rows| && rs[i] == rows[i];
    }
    if BookedDuring(rows, cs, salleId, debut, fin) {
      var i, j :| 0 <= i < |rows| && 0 <= j < |cs| &&
        rows[i].salleId == salleId && HoldsRoom(rows[i].statut) &&
        rows[i].creneauId == Some(cs[j].id) && cs[j].debut < fin && cs[j].fin > debut;
      assert rs[i] == rows[i];
    }
  }

  /** `AddSalle`: the INSERT lists no `description`, so the stored room has none. */
  method AddSalle(db: Database, s: Salle) returns (id: int)
    modifies db`salles
    ensures id == NextId(old(db.salles), (x: Salle) => x.id)
    ensures db.salles == old(db.salles) + [s.(id := id, description := "", equipements := [])]
  {
    id := NextId(db.salles, (x: Salle) => x.id);
    db.salles := db.salles + [s.(id := id, description := "", equipements := [])];
  }

  /** The table after `UpdateSalle(s)`: every column but `dateCreation`. */
  function UpdateSalleRows(ss: seq<Salle>, s: Salle): (r: seq<Salle>)
    ensures |r| == |ss|
    ensures forall i :: 0 <= i < |ss| ==> r[i].id == ss[i].id && r[i].dateCreation == ss[i].dateCreation
    ensures forall i :: 0 <= i < |ss| && ss[i].id != s.id ==> r[i] == ss[i]
    ensures forall i :: 0 <= i < |ss| && ss[i].id == s.id ==>
      r[i].(dateCreation := s.dateCreation, equipements := s.equipements) == s
    ensures forall i :: 0 <= i < |ss| ==> r[i].equipements == ss[i].equipements
  {
    seq(|ss|, i requires 0 <= i < |ss| =>
      if ss[i].id == s.id
      then ss[i].(nom := s.nom, description := s.description, capacite := s.capacite, kind := s.kind,
                  etage := s.etage, disponibilite := s.disponibilite)
      else ss[i])
  }

  /** `UpdateSalle`. */
  method UpdateSalle(db: Database, s: Salle) returns (ok: bool)
    modifies db`salles
    ensures ok <==> HasId(old(db.salles), (x: Salle) => x.id, s.id)
    ensures db.salles == UpdateSalleRows(old(db.salles), s)
  {
    ok := FindById(db.salles, (x: Salle) => x.id, s.id).Some?;
    db.salles := UpdateSalleRows(db.salles, s);
  }

  /** `DeleteSalle`. */
  method DeleteSalle(db: Database, id: int) returns (ok: bool)
    modifies db`salles
    ensures ok <==> HasId(old(db.salles), (x: Salle) => x.id, id)
    ensures db.salles == DeleteById(old(db.salles), (x: Salle) => x.id, id)
  {
    ok := FindById(db.salles, (x: Salle) => x.id, id).Some?;
    db.salles := DeleteById(db.salles, (x: Salle) => x.id, id);
  }
}
