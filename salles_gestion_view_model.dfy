/**
 * SallesGestionViewModel: the administration page for rooms and their equipment. It
 * keeps the loaded rooms, the displayed (possibly searched) list, a room form and an
 * equipment form, and writes through SalleRepository and EquipementRepository.
 *
 * The source shares room and equipment objects between its lists, so an edit made
 * through the selection shows in every list holding that object. The model keeps
 * values and identifies an object by its id, which the store keeps unique: an edit of
 * the selected room (or equipment) is applied to every element bearing its id. This
 * differs after a reload, which gives the source fresh objects while its selection
 * keeps the old one: there the source's edit reaches no displayed room, the model's does.
 */
module SallesGestionViewModel {
  import opened Wrappers
  import opened Text
  import opened Seqs
  import opened ReservationSystemModels
  import opened Store
  import SR = SalleRepository
  import ER = EquipementRepository
  import Rooms = RoomsViewModel

  /** The room types the form offers. */
  const RoomTypes: seq<string> := ["Réunion", "Conférence", "Formation", "Bureau", "Autre"]

  /** The equipment types the form offers. */
  const EquipementTypes: seq<string> :=
    ["Vidéoprojecteur", "Tableau interactif", "Écran plat", "Système audio", "Ordinateur", "Mobilier", "Autre"]

  /** The defaults of the room form. */
  const DefaultCapacite := 10
  const DefaultEtage := 1
  const AddTitle := "Ajouter une salle"

  /** The title of the form editing room `nom`. */
  function EditTitle(nom: string): (t: string)
    ensures |t| == |nom| + 9 && t[..9] == "Éditer : " && t[9..] == nom
  {
    "Éditer : " + nom
  }

  // ---------------------------------------------------------------------------
  // Search
  // ---------------------------------------------------------------------------

  /** The equipment's name, type or description, lower-cased, contains `search`. */
  predicate EquipementMatches(e: Equipement, search: string)
  {
    Contains(ToLower(e.nom), search) || Contains(ToLower(e.kind), search) || Contains(ToLower(e.description), search)
  }

  /** The room's name, description or type, lower-cased, contains `search`, or one of its
      equipment matches it. */
  predicate SalleMatches(s: Salle, search: string)
  {
    Contains(ToLower(s.nom), search) || Contains(ToLower(s.description), search) ||
    Contains(ToLower(s.kind), search) ||
    exists i :: 0 <= i < |s.equipements| && EquipementMatches(s.equipements[i], search)
  }

  /** The list `SearchSalles` shows: every room for a blank text, otherwise the rooms
      matching the lower-cased text, in the loaded order. */
  function SearchResult(all: seq<Salle>, text: string): seq<Salle>
  {
    if IsNullOrWhiteSpace(text) then all
    else Filter(all, (s: Salle) => SalleMatches(s, ToLower(text)))
  }

  /** A blank text shows every room; any other text shows, in order, exactly the rooms
      whose name, description, type or equipment contains it. */
  lemma SearchResultSpec(all: seq<Salle>, text: string)
    ensures IsNullOrWhiteSpace(text) ==> SearchResult(all, text) == all
    ensures IsSubsequence(SearchResult(all, text), all)
    ensures !IsNullOrWhiteSpace(text) ==>
      forall s :: s in SearchResult(all, text) <==> s in all && SalleMatches(s, ToLower(text))
  {
    FilterIsSubsequence(all, (s: Salle) => SalleMatches(s, ToLower(text)));
    if IsNullOrWhiteSpace(text) {
      FilterIsSubsequence(all, (s: Salle) => true);
      FilterAll(all, (s: Salle) => true);
      assert Filter(all, (s: Salle) => true) == all;
    }
  }

  /** Every room the catalogue page finds by name or description, the administration
      page finds as well. */
  lemma SearchCoversCatalogueSearch(r: Salle, text: string)
    requires Rooms.MatchesSearch(r, text)
    ensures SalleMatches(r, ToLower(text))
  {
  }

  /** A room is found through one of its equipment alone. */
  lemma SearchFindsByEquipement(all: seq<Salle>, text: string, s: Salle, e: Equipement)
    requires !IsNullOrWhiteSpace(text) && s in all && e in s.equipements
    requires Contains(ToLower(e.kind), ToLower(text))
    ensures s in SearchResult(all, text)
  {
    var i :| 0 <= i < |s.equipements| && s.equipements[i] == e;
    assert EquipementMatches(s.equipements[i], ToLower(text));
  }

  // ---------------------------------------------------------------------------
  // Lists of shared objects, by id
  // ---------------------------------------------------------------------------

  function SalleId(s: Salle): int
  {
    s.id
  }

  function EquipementId(e: Equipement): int
  {
    e.id
  }

  /** `List.Remove(x)`: drops the first element whose key is `k`, if there is one. */
  function RemoveFirst<T>(s: seq<T>, key: T -> int, k: int): seq<T>
  {
    if s == [] then []
    else if key(s[0]) == k then s[1..]
    else [s[0]] + RemoveFirst(s[1..], key, k)
  }

  /** Removing drops exactly the first element with the key, keeping the order of the
      others. */
  lemma {:induction false} RemoveFirstSpec<T>(s: seq<T>, key: T -> int, k: int, i: int)
    requires 0 <= i < |s| && key(s[i]) == k
    requires forall j :: 0 <= j < i ==> key(s[j]) != k
    ensures RemoveFirst(s, key, k) == s[..i] + s[i + 1..]
  {
    if i > 0 {
      RemoveFirstSpec(s[1..], key, k, i - 1);
      assert s[1..][..i - 1] + s[1..][i..] == s[1..i] + s[i + 1..];
      assert [s[0]] + s[1..i] == s[..i];
    }
  }

  /** With no element bearing the key, removing changes nothing. */
  lemma {:induction false} RemoveFirstAbsent<T>(s: seq<T>, key: T -> int, k: int)
    requires forall j :: 0 <= j < |s| ==> key(s[j]) != k
    ensures RemoveFirst(s, key, k) == s
  {
    if s != [] {
      RemoveFirstAbsent(s[1..], key, k);
      assert [s[0]] + s[1..] == s;
    }
  }

  /** With unique keys, removing leaves no element with the key and keeps every other one. */
  lemma {:induction false} RemoveFirstUnique<T(!new)>(s: seq<T>, key: T -> int, k: int)
    requires UniqueIds(s, key)
    ensures forall x :: x in RemoveFirst(s, key, k) <==> x in s && key(x) != k
    ensures UniqueIds(RemoveFirst(s, key, k), key)
  {
    if s != [] {
      var t := s[1..];
      assert UniqueIds(t, key) by {
        forall i, j | 0 <= i < j < |t| ensures key(t[i]) != key(t[j]) {
          assert t[i] == s[i + 1] && t[j] == s[j + 1];
        }
      }
      if key(s[0]) == k {
        forall j | 0 <= j < |t| ensures key(t[j]) != k {
          assert t[j] == s[j + 1];
        }
      } else {
        RemoveFirstUnique(t, key, k);
        var r := RemoveFirst(t, key, k);
        forall x | x in r ensures key(x) != key(s[0]) {
          assert x in RemoveFirst(t, key, k);
          assert x in t && key(x) != k;
          var j :| 0 <= j < |t| && t[j] == x;
          assert s[j + 1] == x;
        }
        forall i, j | 0 <= i < j < |[s[0]] + r| ensures key(([s[0]] + r)[i]) != key(([s[0]] + r)[j]) {
          if i == 0 {
            assert ([s[0]] + r)[j] == r[j - 1] && r[j - 1] in r;
          } else {
            assert ([s[0]] + r)[i] == r[i - 1] && ([s[0]] + r)[j] == r[j - 1];
          }
        }
      }
    }
  }

  /** The room form's values written into room `s` (`SelectedSalle.Nom = SalleNom`, ...). */
  function EditedSalle(s: Salle, nom: string, description: string, capacite: int, kind: string,
                       etage: int, dispo: bool): (r: Salle)
    ensures r.id == s.id && r.dateCreation == s.dateCreation && r.equipements == s.equipements
  {
    s.(nom := nom, description := description, capacite := capacite, kind := kind,
       etage := etage, disponibilite := dispo)
  }

  /** Room `s` once the form's values are written into it, if it is the edited object. */
  function EditIfId(s: Salle, id: int, nom: string, description: string, capacite: int, kind: string,
                    etage: int, dispo: bool): Salle
  {
    if s.id == id then EditedSalle(s, nom, description, capacite, kind, etage, dispo) else s
  }

  /** The rooms of a list after the edited object is written: it changes wherever it is
      held, and every other room stays as it was. */
  function EditRooms(ss: seq<Salle>, id: int, nom: string, description: string, capacite: int,
                     kind: string, etage: int, dispo: bool): (r: seq<Salle>)
    ensures |r| == |ss|
    ensures forall i :: 0 <= i < |ss| ==> r[i] == EditIfId(ss[i], id, nom, description, capacite, kind, etage, dispo)
  {
    seq(|ss|, i requires 0 <= i < |ss| => EditIfId(ss[i], id, nom, description, capacite, kind, etage, dispo))
  }

  /** Writing the form keeps every id, so the list keeps its unique keys, and the edited
      room then holds the form's values. */
  lemma EditRoomsSpec(ss: seq<Salle>, id: int, nom: string, description: string, capacite: int,
                      kind: string, etage: int, dispo: bool)
    ensures var r := EditRooms(ss, id, nom, description, capacite, kind, etage, dispo);
      (UniqueIds(ss, SalleId) ==> UniqueIds(r, SalleId)) &&
      (forall i :: 0 <= i < |r| ==> r[i].id == ss[i].id && r[i].equipements == ss[i].equipements) &&
      (forall i :: 0 <= i < |r| && r[i].id == id ==>
        r[i].nom == nom && r[i].description == description && r[i].capacite == capacite &&
        r[i].kind == kind && r[i].etage == etage && r[i].disponibilite == dispo) &&
      (forall i :: 0 <= i < |r| && r[i].id != id ==> r[i] == ss[i])
  {
  }

  /** Room `s` with its equipment list changed by `f`, if it is the object `id`. */
  function WithEquipements(s: Salle, id: int, eqs: seq<Equipement>): Salle
  {
    if s.id == id then s.(equipements := eqs) else s
  }

  /** The rooms of a list after the equipment list of room `id` becomes `eqs`. */
  function SetRoomEquipements(ss: seq<Salle>, id: int, eqs: seq<Equipement>): (r: seq<Salle>)
    ensures |r| == |ss|
    ensures forall i :: 0 <= i < |ss| ==> r[i] == WithEquipements(ss[i], id, eqs)
  {
    seq(|ss|, i requires 0 <= i < |ss| => WithEquipements(ss[i], id, eqs))
  }

  /** The equipment form's values written into `e` (`SelectedEquipement.Nom = ...`). */
  function EditedEquipement(e: Equipement, nom: string, description: string, kind: string, fonctionnel: bool): (r: Equipement)
    ensures r.id == e.id && r.salleId == e.salleId && r.dateCreation == e.dateCreation
  {
    e.(nom := nom, description := description, kind := kind, estFonctionnel := fonctionnel)
  }

  /** An equipment list after the edited object is written: it changes wherever it is held. */
  function EditEquipements(eqs: seq<Equipement>, edited: Equipement): (r: seq<Equipement>)
    ensures |r| == |eqs|
    ensures forall i :: 0 <= i < |eqs| ==> r[i] == if eqs[i].id == edited.id then edited else eqs[i]
  {
    seq(|eqs|, i requires 0 <= i < |eqs| => if eqs[i].id == edited.id then edited else eqs[i])
  }

  /** Editing equipment replaces exactly the entries of that id and adds or drops none. */
  lemma EditEquipementsSpec(eqs: seq<Equipement>, edited: Equipement)
    ensures var r := EditEquipements(eqs, edited);
      (forall x :: x in r && x.id != edited.id ==> x in eqs) &&
      (forall x :: x in eqs && x.id != edited.id ==> x in r) &&
      (HasId(eqs, EquipementId, edited.id) <==> edited in r)
  {
    var r := EditEquipements(eqs, edited);
    forall x | x in r && x.id != edited.id ensures x in eqs {
      var i :| 0 <= i < |r| && r[i] == x;
    }
    forall x | x in eqs && x.id != edited.id ensures x in r {
      var i :| 0 <= i < |eqs| && eqs[i] == x;
      assert r[i] == x;
    }
    if HasId(eqs, EquipementId, edited.id) {
      var i :| 0 <= i < |eqs| && EquipementId(eqs[i]) == edited.id;
      assert r[i] == edited;
    }
    if edited in r {
      var i :| 0 <= i < |r| && r[i] == edited;
      assert EquipementId(eqs[i]) == edited.id;
    }
  }

  // ---------------------------------------------------------------------------
  // The page
  // ---------------------------------------------------------------------------

  /** How `SaveSalle` and `SaveEquipement` end. */
  datatype SaveOutcome =
    | NoSelection          // no room selected: the equipment command returns at once
    | NameRequired         // "Le nom ... est requis" / "... est obligatoire"
    | CapacityRequired     // "La capacité doit être supérieure à 0"
    | TypeRequired         // "Le type d'équipement est obligatoire"
    | NotConnected         // no repository manager: SaveSalle returns silently
    | Failed               // the null repository manager throws; the error box is shown
    | Created(id: int)
    | Updated(ok: bool)

  /** How `DeleteSalle` and `DeleteEquipement` end. */
  datatype DeleteOutcome = NothingSelected | Declined | NoStore | Deleted | NotDeleted

  class SallesGestionViewModel {
    /** `_repositoryManager != null`: set by a load. */
    var connected: bool
    /** `_allSalles`: the loaded rooms and those created since. */
    var allSalles: seq<Salle>
    /** `Salles`: the displayed list. */
    var salles: seq<Salle>
    var selectedSalle: Option<Salle>
    var searchText: string
    var isFormVisible: bool
    var formTitle: string
    var salleNom: string
    var salleDescription: string
    var salleCapacite: int
    var salleType: string
    var salleEtage: int
    var salleDispo: bool
    var equipementsDeSalleSelectionnee: seq<Equipement>
    var isEquipementFormVisible: bool
    var equipementNom: string
    var equipementDescription: string
    var equipementType: string
    var equipementEstFonctionnel: bool
    var selectedEquipement: Option<Equipement>

    constructor()
      ensures !connected && allSalles == [] && salles == [] && selectedSalle == None && searchText == ""
      ensures !isFormVisible && formTitle == AddTitle
      ensures salleNom == "" && salleDescription == "" && salleCapacite == DefaultCapacite && salleType == ""
      ensures salleEtage == DefaultEtage && salleDispo
      ensures equipementsDeSalleSelectionnee == [] && !isEquipementFormVisible
      ensures equipementNom == "" && equipementDescription == "" && equipementType == ""
      ensures equipementEstFonctionnel && selectedEquipement == None
    {
      connected, allSalles, salles, selectedSalle, searchText := false, [], [], None, "";
      isFormVisible, formTitle := false, AddTitle;
      salleNom, salleDescription, salleCapacite, salleType := "", "", DefaultCapacite, "";
      salleEtage, salleDispo := DefaultEtage, true;
      equipementsDeSalleSelectionnee, isEquipementFormVisible := [], false;
      equipementNom, equipementDescription, equipementType := "", "", "";
      equipementEstFonctionnel, selectedEquipement := true, None;
    }

    /** `LoadDataAsync`: every room of the catalogue, displayed unsearched. */
    method LoadData(db: Database)
      modifies this`connected, this`allSalles, this`salles
      ensures connected
      ensures allSalles == SR.GetAllSalles(db.salles, db.equipements) && salles == allSalles
    {
      connected := true;
      allSalles := SR.GetAllSalles(db.salles, db.equipements);
      salles := allSalles;
    }

    /** `AddNewSalle`: an empty form with the defaults, no room selected. */
    method AddNewSalle()
      modifies this`salleNom, this`salleDescription, this`salleCapacite, this`salleType, this`salleEtage,
               this`salleDispo, this`selectedSalle, this`equipementsDeSalleSelectionnee,
               this`formTitle, this`isFormVisible
      ensures salleNom == "" && salleDescription == "" && salleCapacite == DefaultCapacite && salleType == ""
      ensures salleEtage == DefaultEtage && salleDispo && selectedSalle == None
      ensures equipementsDeSalleSelectionnee == [] && formTitle == AddTitle && isFormVisible
    {
      salleNom, salleDescription, salleCapacite, salleType := "", "", DefaultCapacite, "";
      salleEtage, salleDispo, selectedSalle := DefaultEtage, true, None;
      equipementsDeSalleSelectionnee := [];
      formTitle, isFormVisible := AddTitle, true;
    }

    /** `EditSalle`: a null room only shows a message; otherwise the form is filled from
        the room, which becomes the selection. */
    method EditSalle(salle: Option<Salle>)
      modifies this`salleNom, this`salleDescription, this`salleCapacite, this`salleType, this`salleEtage,
               this`salleDispo, this`selectedSalle, this`equipementsDeSalleSelectionnee,
               this`formTitle, this`isFormVisible
      ensures salle.None? ==>
        salleNom == old(salleNom) && salleDescription == old(salleDescription) &&
        salleCapacite == old(salleCapacite) && salleType == old(salleType) && salleEtage == old(salleEtage) &&
        salleDispo == old(salleDispo) && selectedSalle == old(selectedSalle) &&
        equipementsDeSalleSelectionnee == old(equipementsDeSalleSelectionnee) &&
        formTitle == old(formTitle) && isFormVisible == old(isFormVisible)
      ensures salle.Some? ==>
        salleNom == salle.value.nom && salleDescription == salle.value.description &&
        salleCapacite == salle.value.capacite && salleType == salle.value.kind &&
        salleEtage == salle.value.etage && salleDispo == salle.value.disponibilite &&
        selectedSalle == salle && equipementsDeSalleSelectionnee == salle.value.equipements &&
        formTitle == EditTitle(salle.value.nom) && isFormVisible
    {
      if salle.None? {
        return;
      }
      var s := salle.value;
      salleNom, salleDescription, salleCapacite, salleType := s.nom, s.description, s.capacite, s.kind;
      salleEtage, salleDispo, selectedSalle := s.etage, s.disponibilite, salle;
      equipementsDeSalleSelectionnee := s.equipements;
      formTitle, isFormVisible := EditTitle(s.nom), true;
    }

    /** `CancelForm`. */
    method CancelForm()
      modifies this`isFormVisible, this`selectedSalle, this`equipementsDeSalleSelectionnee, this`selectedEquipement
      ensures !isFormVisible && selectedSalle == None && equipementsDeSalleSelectionnee == [] && selectedEquipement == None
    {
      isFormVisible, selectedSalle, equipementsDeSalleSelectionnee, selectedEquipement := false, None, [], None;
    }

    /** The room `SaveSalle` creates from the form (its id is the store's to give). */
    function NewSalle(now: int): (s: Salle)
      reads this
      ensures s.nom == salleNom && s.description == salleDescription && s.capacite == salleCapacite
      ensures s.kind == salleType && s.etage == salleEtage && s.disponibilite == salleDispo
      ensures s.dateCreation == now && s.equipements == []
    {
      Salle(0, salleNom, salleDescription, salleCapacite, salleType, salleEtage, salleDispo, now, [])
    }

    /** `SaveSalle`. A blank name or a capacity of zero or less is refused before the store
        is touched; without a store nothing happens. With no room selected, the form's room
        is inserted and, under the id the store returns, appended to the loaded rooms, which
        are then all displayed. With a room selected, the form is first written into that
        room wherever it is held, and only then stored; a successful update redisplays all
        the loaded rooms, a failed one leaves the edited values in the lists. */
    method SaveSalle(db: Database, now: int) returns (outcome: SaveOutcome)
      modifies db`salles, this`allSalles, this`salles, this`selectedSalle, this`isFormVisible
      ensures outcome == NameRequired <==> IsNullOrWhiteSpace(salleNom)
      ensures outcome == CapacityRequired <==> !IsNullOrWhiteSpace(salleNom) && salleCapacite <= 0
      ensures outcome == NotConnected <==> !IsNullOrWhiteSpace(salleNom) && salleCapacite > 0 && !connected
      ensures outcome in {NameRequired, CapacityRequired, NotConnected} ==>
        db.salles == old(db.salles) && allSalles == old(allSalles) && salles == old(salles) &&
        selectedSalle == old(selectedSalle) && isFormVisible == old(isFormVisible)
      ensures outcome.Created? <==>
        !IsNullOrWhiteSpace(salleNom) && salleCapacite > 0 && connected && old(selectedSalle).None?
      ensures outcome.Created? ==>
        outcome.id == NextId(old(db.salles), (x: Salle) => x.id) && outcome.id > 0 &&
        db.salles == old(db.salles) + [NewSalle(now).(id := outcome.id, description := "")] &&
        allSalles == old(allSalles) + [NewSalle(now).(id := outcome.id)] && salles == allSalles &&
        selectedSalle == None && !isFormVisible
      ensures outcome.Updated? <==>
        !IsNullOrWhiteSpace(salleNom) && salleCapacite > 0 && connected && old(selectedSalle).Some?
      ensures outcome.Updated? ==>
        var id := old(selectedSalle).value.id;
        var edited := EditedSalle(old(selectedSalle).value, salleNom, salleDescription, salleCapacite,
                                  salleType, salleEtage, salleDispo);
        (outcome.ok <==> HasId(old(db.salles), (x: Salle) => x.id, id)) &&
        db.salles == SR.UpdateSalleRows(old(db.salles), edited) &&
        selectedSalle == Some(edited) &&
        allSalles == EditRooms(old(allSalles), id, salleNom, salleDescription, salleCapacite, salleType, salleEtage, salleDispo) &&
        (outcome.ok ==> salles == allSalles && !isFormVisible) &&
        (!outcome.ok ==>
          salles == EditRooms(old(salles), id, salleNom, salleDescription, salleCapacite, salleType, salleEtage, salleDispo) &&
          isFormVisible == old(isFormVisible))
    {
      if IsNullOrWhiteSpace(salleNom) {
        return NameRequired;
      }
      if salleCapacite <= 0 {
        return CapacityRequired;
      }
      if !connected {
        return NotConnected;
      }
      if selectedSalle.None? {
        var id := InsertFormSalle(db, now);
        outcome := Created(id);
      } else {
        var updated := UpdateSelectedSalle(db);
        outcome := Updated(updated);
      }
    }

    /** The create branch of `SaveSalle`: the form's room is inserted and, under its new
        id, appended to the loaded rooms, which are then all displayed; the form closes. */
    method InsertFormSalle(db: Database, now: int) returns (id: int)
      modifies db`salles, this`allSalles, this`salles, this`isFormVisible
      ensures id == NextId(old(db.salles), (x: Salle) => x.id) && id > 0
      ensures db.salles == old(db.salles) + [NewSalle(now).(id := id, description := "")]
      ensures allSalles == old(allSalles) + [NewSalle(now).(id := id)] && salles == allSalles && !isFormVisible
    {
      var newSalle := NewSalle(now);
      id := SR.AddSalle(db, newSalle);
      if id > 0 {
        allSalles := allSalles + [newSalle.(id := id)];
        salles := allSalles;
        isFormVisible := false;
      }
    }

    /** The edit branch of `SaveSalle`: the form is written into the selected room object,
        so both lists show the edit, and the room is stored; only on success are all loaded
        rooms displayed again and the form closed. */
    method UpdateSelectedSalle(db: Database) returns (updated: bool)
      requires selectedSalle.Some?
      modifies db`salles, this`allSalles, this`salles, this`selectedSalle, this`isFormVisible
      ensures var id := old(selectedSalle).value.id;
        var edited := EditedSalle(old(selectedSalle).value, salleNom, salleDescription, salleCapacite,
                                  salleType, salleEtage, salleDispo);
        (updated <==> HasId(old(db.salles), (x: Salle) => x.id, id)) &&
        db.salles == SR.UpdateSalleRows(old(db.salles), edited) &&
        selectedSalle == Some(edited) &&
        allSalles == EditRooms(old(allSalles), id, salleNom, salleDescription, salleCapacite, salleType, salleEtage, salleDispo) &&
        (updated ==> salles == allSalles && !isFormVisible) &&
        (!updated ==>
          salles == EditRooms(old(salles), id, salleNom, salleDescription, salleCapacite, salleType, salleEtage, salleDispo) &&
          isFormVisible == old(isFormVisible))
    {
      var id := selectedSalle.value.id;
      var nom, description, capacite, kind, etage, dispo := salleNom, salleDescription, salleCapacite, salleType, salleEtage, salleDispo;
      var edited := EditedSalle(selectedSalle.value, nom, description, capacite, kind, etage, dispo);
      selectedSalle := Some(edited);
      allSalles := EditRooms(allSalles, id, nom, description, capacite, kind, etage, dispo);
      salles := EditRooms(salles, id, nom, description, capacite, kind, etage, dispo);
      updated := SR.UpdateSalle(db, edited);
      if updated {
        salles := allSalles;
        isFormVisible := false;
      }
    }

    /** `DeleteSalle`: a null room, a declined confirmation or a missing store change
        nothing; otherwise the room is deleted from the store and, on success, removed
        from the loaded rooms, which are then all displayed, and the form closes. */
    method DeleteSalle(db: Database, salle: Option<Salle>, confirmed: bool) returns (outcome: DeleteOutcome)
      modifies db`salles, this`allSalles, this`salles, this`selectedSalle, this`isFormVisible
      ensures outcome == NothingSelected <==> salle.None?
      ensures outcome == Declined <==> salle.Some? && !confirmed
      ensures outcome == NoStore <==> salle.Some? && confirmed && !connected
      ensures outcome in {NothingSelected, Declined, NoStore} ==>
        db.salles == old(db.salles) && allSalles == old(allSalles) && salles == old(salles) &&
        selectedSalle == old(selectedSalle) && isFormVisible == old(isFormVisible)
      ensures outcome in {Deleted, NotDeleted} ==>
        db.salles == DeleteById(old(db.salles), (x: Salle) => x.id, salle.value.id) &&
        (outcome == Deleted <==> HasId(old(db.salles), (x: Salle) => x.id, salle.value.id))
      ensures outcome == Deleted ==>
        allSalles == RemoveFirst(old(allSalles), SalleId, salle.value.id) && salles == allSalles &&
        selectedSalle == None && !isFormVisible
      ensures outcome == NotDeleted ==>
        allSalles == old(allSalles) && salles == old(salles) &&
        selectedSalle == old(selectedSalle) && isFormVisible == old(isFormVisible)
    {
      if salle.None? {
        return NothingSelected;
      }
      if !confirmed {
        return Declined;
      }
      if !connected {
        return NoStore;
      }
      var deleted := SR.DeleteSalle(db, salle.value.id);
      assert deleted <==> HasId(old(db.salles), (x: Salle) => x.id, salle.value.id);
      if deleted {
        allSalles := RemoveFirst(allSalles, SalleId, salle.value.id);
        salles := allSalles;
        selectedSalle, isFormVisible := None, false;
        outcome := Deleted;
      } else {
        outcome := NotDeleted;
      }
    }

    /** `SearchSalles`. */
    method SearchSalles()
      modifies this`salles
      ensures salles == SearchResult(allSalles, searchText)
    {
      var text := searchText;
      if IsNullOrWhiteSpace(text) {
        salles := allSalles;
      } else {
        var search := ToLower(text);
        salles := Filter(allSalles, (s: Salle) => SalleMatches(s, search));
      }
    }

    /** Assigning `SearchText`: a changed text runs the search. */
    method SetSearchText(t: string)
      modifies this`searchText, this`salles
      ensures searchText == t
      ensures t != old(searchText) ==> salles == SearchResult(allSalles, t)
      ensures t == old(searchText) ==> salles == old(salles)
    {
      if t != searchText {
        searchText := t;
        SearchSalles();
      }
    }

    /** `AddNewEquipement`: with a room selected, an empty equipment form. */
    method AddNewEquipement()
      modifies this`equipementNom, this`equipementDescription, this`equipementType,
               this`equipementEstFonctionnel, this`selectedEquipement, this`isEquipementFormVisible
      ensures selectedSalle.None? ==>
        equipementNom == old(equipementNom) && equipementDescription == old(equipementDescription) &&
        equipementType == old(equipementType) && equipementEstFonctionnel == old(equipementEstFonctionnel) &&
        selectedEquipement == old(selectedEquipement) && isEquipementFormVisible == old(isEquipementFormVisible)
      ensures selectedSalle.Some? ==>
        equipementNom == "" && equipementDescription == "" && equipementType == "" &&
        equipementEstFonctionnel && selectedEquipement == None && isEquipementFormVisible
    {
      if selectedSalle.None? {
        return;
      }
      equipementNom, equipementDescription, equipementType := "", "", "";
      equipementEstFonctionnel, selectedEquipement, isEquipementFormVisible := true, None, true;
    }

    /** `EditEquipement`: the equipment form filled from `equipement`, which becomes the
        selection. */
    method EditEquipement(equipement: Option<Equipement>)
      modifies this`equipementNom, this`equipementDescription, this`equipementType,
               this`equipementEstFonctionnel, this`selectedEquipement, this`isEquipementFormVisible
      ensures equipement.None? ==>
        equipementNom == old(equipementNom) && equipementDescription == old(equipementDescription) &&
        equipementType == old(equipementType) && equipementEstFonctionnel == old(equipementEstFonctionnel) &&
        selectedEquipement == old(selectedEquipement) && isEquipementFormVisible == old(isEquipementFormVisible)
      ensures equipement.Some? ==>
        equipementNom == equipement.value.nom && equipementDescription == equipement.value.description &&
        equipementType == equipement.value.kind && equipementEstFonctionnel == equipement.value.estFonctionnel &&
        selectedEquipement == equipement && isEquipementFormVisible
    {
      if equipement.None? {
        return;
      }
      var e := equipement.value;
      equipementNom, equipementDescription, equipementType := e.nom, e.description, e.kind;
      equipementEstFonctionnel, selectedEquipement, isEquipementFormVisible := e.estFonctionnel, equipement, true;
    }

    /** `CancelEquipementForm`. */
    method CancelEquipementForm()
      modifies this`isEquipementFormVisible
      ensures !isEquipementFormVisible
    {
      isEquipementFormVisible := false;
    }

    /** The equipment `SaveEquipement` creates in room `salleId` from the form. */
    function NewEquipement(salleId: int, now: int): (e: Equipement)
      reads this
      ensures e.nom == equipementNom && e.description == equipementDescription && e.kind == equipementType
      ensures e.estFonctionnel == equipementEstFonctionnel && e.salleId == salleId && e.dateCreation == now
    {
      Equipement(0, equipementNom, equipementDescription, equipementType, equipementEstFonctionnel, salleId, now)
    }

    /** Adds `e` to the equipment list of the selected room wherever that room is held. */
    method AttachToSelected(e: Equipement)
      requires selectedSalle.Some?
      modifies this`selectedSalle, this`allSalles, this`salles
      ensures var id := old(selectedSalle).value.id;
        var eqs := old(selectedSalle).value.equipements + [e];
        selectedSalle == Some(old(selectedSalle).value.(equipements := eqs)) &&
        allSalles == SetRoomEquipements(old(allSalles), id, eqs) && salles == SetRoomEquipements(old(salles), id, eqs)
    {
      var id := selectedSalle.value.id;
      var eqs := selectedSalle.value.equipements + [e];
      selectedSalle := Some(selectedSalle.value.(equipements := eqs));
      allSalles := SetRoomEquipements(allSalles, id, eqs);
      salles := SetRoomEquipements(salles, id, eqs);
    }

    /** Clears and hides the equipment form, as a finished save does. */
    method ResetEquipementForm()
      modifies this`isEquipementFormVisible, this`equipementNom, this`equipementDescription,
               this`equipementType, this`equipementEstFonctionnel, this`selectedEquipement
      ensures !isEquipementFormVisible && equipementNom == "" && equipementDescription == "" && equipementType == ""
      ensures equipementEstFonctionnel && selectedEquipement == None
    {
      isEquipementFormVisible, equipementNom, equipementDescription, equipementType := false, "", "", "";
      equipementEstFonctionnel, selectedEquipement := true, None;
    }

    /** The create branch of `SaveEquipement`: the form's equipment is inserted in the
        selected room and, under its new id, added to the displayed equipment and to the
        room's own list. */
    method InsertFormEquipement(db: Database, now: int) returns (id: int)
      requires selectedSalle.Some?
      modifies db`equipements, this`equipementsDeSalleSelectionnee, this`selectedSalle, this`allSalles, this`salles
      ensures var e := NewEquipement(old(selectedSalle).value.id, now).(id := id);
        var eqs := old(selectedSalle).value.equipements + [e];
        id == NextId(old(db.equipements), (x: Equipement) => x.id) && id > 0 &&
        db.equipements == old(db.equipements) + [e] &&
        equipementsDeSalleSelectionnee == old(equipementsDeSalleSelectionnee) + [e] &&
        selectedSalle == Some(old(selectedSalle).value.(equipements := eqs)) &&
        allSalles == SetRoomEquipements(old(allSalles), old(selectedSalle).value.id, eqs) &&
        salles == SetRoomEquipements(old(salles), old(selectedSalle).value.id, eqs)
    {
      var newEquipement := NewEquipement(selectedSalle.value.id, now);
      id := ER.AddEquipement(db, newEquipement);
      if id > 0 {
        var e := newEquipement.(id := id);
        equipementsDeSalleSelectionnee := equipementsDeSalleSelectionnee + [e];
        AttachToSelected(e);
      }
    }

    /** The first step of the edit branch of `SaveEquipement`: the form is written into
        the selected equipment object, so every list holding it shows the edit. */
    method WriteEditedEquipement(edited: Equipement)
      requires selectedSalle.Some?
      modifies this`equipementsDeSalleSelectionnee, this`selectedSalle, this`allSalles, this`salles
      ensures var roomEquipements := EditEquipements(old(selectedSalle).value.equipements, edited);
        equipementsDeSalleSelectionnee == EditEquipements(old(equipementsDeSalleSelectionnee), edited) &&
        selectedSalle == Some(old(selectedSalle).value.(equipements := roomEquipements)) &&
        allSalles == SetRoomEquipements(old(allSalles), old(selectedSalle).value.id, roomEquipements) &&
        salles == SetRoomEquipements(old(salles), old(selectedSalle).value.id, roomEquipements)
    {
      var room := selectedSalle.value;
      var roomEquipements := EditEquipements(room.equipements, edited);
      equipementsDeSalleSelectionnee := EditEquipements(equipementsDeSalleSelectionnee, edited);
      selectedSalle := Some(room.(equipements := roomEquipements));
      allSalles := SetRoomEquipements(allSalles, room.id, roomEquipements);
      salles := SetRoomEquipements(salles, room.id, roomEquipements);
    }

    /** `SaveEquipement`. Without a selected room nothing happens; a blank name or a blank
        type is refused. With no equipment selected, the form's equipment is inserted in the
        selected room and, under its new id, added to the displayed equipment and to the
        room's own list. With an equipment selected, the form is first written into it
        wherever it is held and then stored. Either way the form is then cleared and hidden.
        Without a store the repository call throws: nothing is stored and the form stays,
        but an edit already written into the lists stays written. */
    method SaveEquipement(db: Database, now: int) returns (outcome: SaveOutcome)
      modifies db`equipements, this`equipementsDeSalleSelectionnee, this`selectedSalle, this`allSalles,
               this`salles, this`isEquipementFormVisible, this`equipementNom, this`equipementDescription,
               this`equipementType, this`equipementEstFonctionnel, this`selectedEquipement
      ensures outcome == NoSelection <==> old(selectedSalle).None?
      ensures outcome == NameRequired <==> old(selectedSalle).Some? && IsNullOrWhiteSpace(old(equipementNom))
      ensures outcome == TypeRequired <==>
        old(selectedSalle).Some? && !IsNullOrWhiteSpace(old(equipementNom)) && IsNullOrWhiteSpace(old(equipementType))
      ensures outcome == Failed <==>
        old(selectedSalle).Some? && !IsNullOrWhiteSpace(old(equipementNom)) && !IsNullOrWhiteSpace(old(equipementType)) &&
        !connected
      ensures outcome in {NoSelection, NameRequired, TypeRequired, Failed} ==>
        db.equipements == old(db.equipements) &&
        equipementNom == old(equipementNom) && equipementType == old(equipementType) &&
        selectedEquipement == old(selectedEquipement) && isEquipementFormVisible == old(isEquipementFormVisible) &&
        equipementDescription == old(equipementDescription) && equipementEstFonctionnel == old(equipementEstFonctionnel)
      ensures outcome in {NoSelection, NameRequired, TypeRequired} || (outcome == Failed && old(selectedEquipement).None?) ==>
        equipementsDeSalleSelectionnee == old(equipementsDeSalleSelectionnee) &&
        selectedSalle == old(selectedSalle) && allSalles == old(allSalles) && salles == old(salles)
      ensures outcome.Created? <==> outcome !in {NoSelection, NameRequired, TypeRequired, Failed} && old(selectedEquipement).None?
      ensures outcome.Created? ==>
        var e := old(NewEquipement(selectedSalle.value.id, now)).(id := outcome.id);
        outcome.id == NextId(old(db.equipements), (x: Equipement) => x.id) && outcome.id > 0 &&
        db.equipements == old(db.equipements) + [e] &&
        equipementsDeSalleSelectionnee == old(equipementsDeSalleSelectionnee) + [e] &&
        selectedSalle == Some(old(selectedSalle).value.(equipements := old(selectedSalle).value.equipements + [e])) &&
        allSalles == SetRoomEquipements(old(allSalles), old(selectedSalle).value.id, old(selectedSalle).value.equipements + [e]) &&
        salles == SetRoomEquipements(old(salles), old(selectedSalle).value.id, old(selectedSalle).value.equipements + [e])
      ensures outcome.Updated? <==> outcome !in {NoSelection, NameRequired, TypeRequired, Failed} && old(selectedEquipement).Some?
      ensures outcome.Updated? || (outcome == Failed && old(selectedEquipement).Some?) ==>
        var edited := EditedEquipement(old(selectedEquipement).value, old(equipementNom), old(equipementDescription),
                                       old(equipementType), old(equipementEstFonctionnel));
        var roomEquipements := EditEquipements(old(selectedSalle).value.equipements, edited);
        equipementsDeSalleSelectionnee == EditEquipements(old(equipementsDeSalleSelectionnee), edited) &&
        selectedSalle == Some(old(selectedSalle).value.(equipements := roomEquipements)) &&
        allSalles == SetRoomEquipements(old(allSalles), old(selectedSalle).value.id, roomEquipements) &&
        salles == SetRoomEquipements(old(salles), old(selectedSalle).value.id, roomEquipements)
      ensures outcome.Updated? ==>
        var edited := EditedEquipement(old(selectedEquipement).value, old(equipementNom), old(equipementDescription),
                                       old(equipementType), old(equipementEstFonctionnel));
        (outcome.ok <==> HasId(old(db.equipements), (x: Equipement) => x.id, edited.id)) &&
        db.equipements == ER.UpdateEquipementRows(old(db.equipements), edited)
      ensures outcome.Created? || outcome.Updated? ==>
        !isEquipementFormVisible && equipementNom == "" && equipementDescription == "" && equipementType == "" &&
        equipementEstFonctionnel && selectedEquipement == None
    {
      if selectedSalle.None? {
        return NoSelection;
      }
      if IsNullOrWhiteSpace(equipementNom) {
        return NameRequired;
      }
      if IsNullOrWhiteSpace(equipementType) {
        return TypeRequired;
      }
      if selectedEquipement.None? {
        if !connected {
          return Failed;
        }
        var id := InsertFormEquipement(db, now);
        outcome := Created(id);
      } else {
        var edited := EditedEquipement(selectedEquipement.value, equipementNom, equipementDescription,
                                       equipementType, equipementEstFonctionnel);
        WriteEditedEquipement(edited);
        if !connected {
          return Failed;
        }
        var updated := ER.UpdateEquipement(db, edited);
        outcome := Updated(updated);
      }
      ResetEquipementForm();
    }

    /** `DeleteEquipement`: without equipment or a selected room, or when declined, nothing
        happens; without a store the call throws and nothing changes. Otherwise the
        equipment is deleted from the store and, on success, removed from the displayed
        equipment and from the selected room's own list. */
    method DeleteEquipement(db: Database, equipement: Option<Equipement>, confirmed: bool) returns (outcome: DeleteOutcome)
      modifies db`equipements, this`equipementsDeSalleSelectionnee, this`selectedSalle, this`allSalles, this`salles
      ensures outcome == NothingSelected <==> equipement.None? || old(selectedSalle).None?
      ensures outcome == Declined <==> equipement.Some? && old(selectedSalle).Some? && !confirmed
      ensures outcome == NoStore <==> equipement.Some? && old(selectedSalle).Some? && confirmed && !connected
      ensures outcome in {NothingSelected, Declined, NoStore} ==>
        db.equipements == old(db.equipements) && equipementsDeSalleSelectionnee == old(equipementsDeSalleSelectionnee) &&
        selectedSalle == old(selectedSalle) && allSalles == old(allSalles) && salles == old(salles)
      ensures outcome in {Deleted, NotDeleted} ==>
        db.equipements == DeleteById(old(db.equipements), (x: Equipement) => x.id, equipement.value.id) &&
        (outcome == Deleted <==> HasId(old(db.equipements), (x: Equipement) => x.id, equipement.value.id))
      ensures outcome == Deleted ==>
        var id := equipement.value.id;
        var roomEquipements := RemoveFirst(old(selectedSalle).value.equipements, EquipementId, id);
        equipementsDeSalleSelectionnee == RemoveFirst(old(equipementsDeSalleSelectionnee), EquipementId, id) &&
        selectedSalle == Some(old(selectedSalle).value.(equipements := roomEquipements)) &&
        allSalles == SetRoomEquipements(old(allSalles), old(selectedSalle).value.id, roomEquipements) &&
        salles == SetRoomEquipements(old(salles), old(selectedSalle).value.id, roomEquipements)
      ensures outcome == NotDeleted ==>
        equipementsDeSalleSelectionnee == old(equipementsDeSalleSelectionnee) &&
        selectedSalle == old(selectedSalle) && allSalles == old(allSalles) && salles == old(salles)
    {
      if equipement.None? || selectedSalle.None? {
        return NothingSelected;
      }
      if !confirmed {
        return Declined;
      }
      if !connected {
        return NoStore;
      }
      var id := equipement.value.id;
      var deleted := ER.DeleteEquipement(db, id);
      assert deleted <==> HasId(old(db.equipements), (x: Equipement) => x.id, id);
      if deleted {
        var room := selectedSalle.value;
        var roomEquipements := RemoveFirst(room.equipements, EquipementId, id);
        equipementsDeSalleSelectionnee := RemoveFirst(equipementsDeSalleSelectionnee, EquipementId, id);
        selectedSalle := Some(room.(equipements := roomEquipements));
        allSalles := SetRoomEquipements(allSalles, room.id, roomEquipements);
        salles := SetRoomEquipements(salles, room.id, roomEquipements);
        outcome := Deleted;
      } else {
        outcome := NotDeleted;
      }
    }
  }

  /** A created room keeps its description in the page's list, while the store, whose
      INSERT has no description column, reads it back with none: the two disagree until
      the next load. */
  lemma CreatedDescriptionNotStored(rows: seq<Salle>, s: Salle)
    requires s.description != ""
    ensures var id := NextId(rows, (x: Salle) => x.id);
      var stored := rows + [s.(id := id, description := "", equipements := [])];
      var found := FindById(stored, (x: Salle) => x.id, id);
      found.Some? && found.value.description == "" && found.value.description != s.(id := id).description
  {
    var id := NextId(rows, (x: Salle) => x.id);
    var last := s.(id := id, description := "", equipements := []);
    var stored := rows + [last];
    assert stored[|rows|] == last;
    var found := FindById(stored, (x: Salle) => x.id, id);
    assert found.Some?;
    var i :| 0 <= i < |stored| && stored[i] == found.value;
    assert i == |rows|;
  }

  /** A successful room update redisplays every loaded room: a search in force is no
      longer applied, and a room it had hidden shows again. */
  lemma UpdateDropsSearch(all: seq<Salle>, text: string, hidden: Salle)
    requires !IsNullOrWhiteSpace(text) && hidden in all && !SalleMatches(hidden, ToLower(text))
    ensures hidden !in SearchResult(all, text) && hidden in all
  {
    SearchResultSpec(all, text);
  }
}
