/**
 * RoomsViewModel: the room catalogue page. It filters the rooms by a search text, a
 * minimum capacity, a floor and a set of equipment types, and offers the floors and
 * one equipment choice per type as filter options.
 */
module RoomsViewModel {
  import opened Wrappers
  import opened Text
  import opened Seqs
  import opened ReservationSystemModels
  import opened Store
  import SR = SalleRepository
  import ER = EquipementRepository

  /** An `EquipementSelectionItem`: a piece of equipment and its check box. */
  datatype SelectionItem = SelectionItem(equipement: Equipement, isSelected: bool)

  /** The lower-cased name or description contains the lower-cased search text. */
  predicate MatchesSearch(r: Salle, search: string)
  {
    Contains(ToLower(r.nom), ToLower(search)) || Contains(ToLower(r.description), ToLower(search))
  }

  /** An equipment's type: the key of the type sets and of the per-type choice. */
  function Kind(e: Equipement): string
  {
    e.kind
  }

  /** `Select(e => e.Type).ToHashSet()`. */
  function KindsOf(eqs: seq<Equipement>): set<string>
  {
    KeySet(eqs, Kind)
  }

  /** The equipment test: the room has equipment, and every selected type among it. */
  predicate HasAllKinds(r: Salle, selected: seq<Equipement>)
  {
    |r.equipements| > 0 && KindsOf(selected) <= KindsOf(r.equipements)
  }

  /** The conjunction of the `Where` clauses of the filter chain, each present only when
      its criterion is set. */
  predicate Keep(r: Salle, searchText: string, minCapacity: int, floor: Option<int>, selected: seq<Equipement>)
  {
    (!IsNullOrWhiteSpace(searchText) ==> MatchesSearch(r, searchText)) &&
    (minCapacity > 0 ==> r.capacite >= minCapacity) &&
    (floor.Some? ==> r.etage == floor.value) &&
    (|selected| > 0 ==> HasAllKinds(r, selected))
  }

  /** The list `ApplyFiltersInternal` assigns to `FilteredRooms`: the chain of `Where`s
      is one filter by their conjunction. */
  function RoomFilter(all: seq<Salle>, searchText: string, minCapacity: int, floor: Option<int>,
                      selected: seq<Equipement>): seq<Salle>
  {
    Filter(all, (r: Salle) => Keep(r, searchText, minCapacity, floor, selected))
  }

  /** The filtered rooms keep the catalogue's order; a room is listed exactly when it
      passes every criterion that is set. */
  lemma RoomFilterSpec(all: seq<Salle>, searchText: string, minCapacity: int, floor: Option<int>,
                       selected: seq<Equipement>)
    ensures IsSubsequence(RoomFilter(all, searchText, minCapacity, floor, selected), all)
    ensures forall r :: r in RoomFilter(all, searchText, minCapacity, floor, selected) <==>
      r in all &&
      (!IsNullOrWhiteSpace(searchText) ==> MatchesSearch(r, searchText)) &&
      (minCapacity > 0 ==> r.capacite >= minCapacity) &&
      (floor.Some? ==> r.etage == floor.value) &&
      (|selected| > 0 ==> |r.equipements| > 0 && KindsOf(selected) <= KindsOf(r.equipements))
  {
    FilterIsSubsequence(all, (r: Salle) => Keep(r, searchText, minCapacity, floor, selected));
  }

  /** With no criterion set, every room is shown. */
  lemma NoCriteriaShowsAll(all: seq<Salle>, searchText: string, minCapacity: int)
    requires IsNullOrWhiteSpace(searchText) && minCapacity <= 0
    ensures RoomFilter(all, searchText, minCapacity, None, []) == all
  {
    FilterAll(all, (r: Salle) => Keep(r, searchText, minCapacity, None, []));
  }

  /** With equipment selected, a room without any equipment is never shown, even for a
      selection whose types it would not need. */
  lemma BareRoomHidden(all: seq<Salle>, searchText: string, minCapacity: int, floor: Option<int>,
                       selected: seq<Equipement>, r: Salle)
    requires |selected| > 0 && r.equipements == []
    ensures r !in RoomFilter(all, searchText, minCapacity, floor, selected)
  {
  }

  /** A floor: the key of `Distinct()` on floors. */
  function Floor(f: int): int
  {
    f
  }

  /** `OrderBy(f => f)`. */
  function ByFloor(f: int): seq<int>
  {
    [f]
  }

  /** `rooms.Select(r => r.Etage)`. */
  function Etages(rooms: seq<Salle>): (r: seq<int>)
    ensures |r| == |rooms| && forall i :: 0 <= i < |rooms| ==> r[i] == rooms[i].etage
  {
    seq(|rooms|, i requires 0 <= i < |rooms| => rooms[i].etage)
  }

  /** `Select(r => r.Etage).Distinct().OrderBy(f => f)`. */
  function DistinctFloors(rooms: seq<Salle>): seq<int>
  {
    SortByKey(FirstPerKey(Etages(rooms), Floor), ByFloor)
  }

  /** The distinct floors are exactly the rooms' floors, in strictly ascending order. */
  lemma DistinctFloorsSpec(rooms: seq<Salle>)
    ensures forall f :: f in DistinctFloors(rooms) <==> exists i :: 0 <= i < |rooms| && rooms[i].etage == f
    ensures var d := DistinctFloors(rooms); forall i, j :: 0 <= i < j < |d| ==> d[i] < d[j]
  {
    DistinctFloorsMembers(rooms);
    DistinctFloorsAscending(rooms);
  }

  /** A floor is among the distinct floors exactly when a room is on it. */
  lemma DistinctFloorsMembers(rooms: seq<Salle>)
    ensures forall f :: f in DistinctFloors(rooms) <==> exists i :: 0 <= i < |rooms| && rooms[i].etage == f
  {
    forall f ensures f in DistinctFloors(rooms) <==> exists i :: 0 <= i < |rooms| && rooms[i].etage == f {
      if f in DistinctFloors(rooms) {
        DistinctFloorOfRoom(rooms, f);
      }
      if exists i :: 0 <= i < |rooms| && rooms[i].etage == f {
        var i :| 0 <= i < |rooms| && rooms[i].etage == f;
        RoomFloorDistinct(rooms, i);
      }
    }
  }

  /** A distinct floor is the floor of a room. */
  lemma DistinctFloorOfRoom(rooms: seq<Salle>, f: int)
    requires f in DistinctFloors(rooms)
    ensures exists i :: 0 <= i < |rooms| && rooms[i].etage == f
  {
    var e := Etages(rooms);
    var u := FirstPerKey(e, Floor);
    FirstPerKeyFrom(e, Floor);
    SortMembers(u, ByFloor);
    assert f in u && f in e;
  }

  /** The floor of each room is a distinct floor. */
  lemma RoomFloorDistinct(rooms: seq<Salle>, i: int)
    requires 0 <= i < |rooms|
    ensures rooms[i].etage in DistinctFloors(rooms)
  {
    var e := Etages(rooms);
    var u := FirstPerKey(e, Floor);
    var f := rooms[i].etage;
    FirstPerKeyKeys(e, Floor);
    SortMembers(u, ByFloor);
    assert e[i] == f && Floor(f) in KeySet(e, Floor);
    var y :| y in u && Floor(y) == Floor(f);
  }

  /** The distinct floors are strictly ascending: sorted, and no floor twice. */
  lemma DistinctFloorsAscending(rooms: seq<Salle>)
    ensures var d := DistinctFloors(rooms); forall i, j :: 0 <= i < j < |d| ==> d[i] < d[j]
  {
    var u := FirstPerKey(Etages(rooms), Floor);
    var d := DistinctFloors(rooms);
    FirstPerKeyKeys(Etages(rooms), Floor);
    SortSorted(u, ByFloor);
    DistinctOnce(u);
    forall i, j | 0 <= i < j < |d| ensures d[i] < d[j] {
      LexLeSingle(d[i], d[j]);
      if d[i] == d[j] {
        RepeatTwice(d, i, j);
        assert false;
      }
    }
  }

  /** The floor options: "all floors" (null), then each of the given floors. */
  function FloorOptionList(d: seq<int>): (r: seq<Option<int>>)
    ensures |r| == |d| + 1 && r[0] == None
    ensures forall i :: 0 <= i < |d| ==> r[i + 1] == Some(d[i])
  {
    [None] + seq(|d|, i requires 0 <= i < |d| => Some(d[i]))
  }

  /** The loop filling `floors`: starts from the null option and adds each distinct floor. */
  method FloorChoices(rooms: seq<Salle>) returns (floors: seq<Option<int>>)
    ensures floors == FloorOptionList(DistinctFloors(rooms))
  {
    var distinct := DistinctFloors(rooms);
    floors := [None];
    for i := 0 to |distinct|
      invariant |floors| == i + 1 && floors[0] == None
      invariant forall k :: 0 <= k < i ==> floors[k + 1] == Some(distinct[k])
    {
      floors := floors + [Some(distinct[i])];
    }
  }

  /** Each code point shifted up by one, so that 0 can end a field of a composite key. */
  function Shifted(s: string): (r: seq<int>)
    ensures |r| == |s| && forall i :: 0 <= i < |s| ==> r[i] == s[i] as int + 1
  {
    seq(|s|, i requires 0 <= i < |s| => s[i] as int + 1)
  }

  /** `OrderBy(e => e.Type).ThenBy(e => e.Nom)`: the type, an end mark, the name. */
  function ByTypeNom(e: Equipement): seq<int>
  {
    Shifted(e.kind) + [0] + Shifted(e.nom)
  }

  /** Shifting keeps the order of code points. */
  lemma {:induction false} ShiftedOrder(a: string, b: string)
    ensures LexLe(Shifted(a), Shifted(b)) <==> LexLe(CodePoints(a), CodePoints(b))
    decreases |a|
  {
    if a != [] && b != [] {
      assert Shifted(a)[1..] == Shifted(a[1..]) && Shifted(b)[1..] == Shifted(b[1..]);
      assert CodePoints(a)[1..] == CodePoints(a[1..]) && CodePoints(b)[1..] == CodePoints(b[1..]);
      ShiftedOrder(a[1..], b[1..]);
    }
  }

  /** Keys with a common prefix compare as what follows it. */
  lemma {:induction false} CommonPrefixOrder(p: seq<int>, x: seq<int>, y: seq<int>)
    ensures LexLe(p + x, p + y) <==> LexLe(x, y)
    decreases |p|
  {
    if p != [] {
      var a, b := p + x, p + y;
      assert a[0] == b[0] && a != [] && b != [];
      assert a[1..] == p[1..] + x && b[1..] == p[1..] + y;
      CommonPrefixOrder(p[1..], x, y);
      assert LexLe(a, b) <==> LexLe(a[1..], b[1..]);
    } else {
      assert p + x == x && p + y == y;
    }
  }

  /** Two pieces of equipment of one type are ordered by their names. */
  lemma SameKindOrder(a: Equipement, b: Equipement)
    requires a.kind == b.kind
    ensures LexLe(ByTypeNom(a), ByTypeNom(b)) <==> LexLe(CodePoints(a.nom), CodePoints(b.nom))
  {
    var p := Shifted(a.kind) + [0];
    assert ByTypeNom(a) == p + Shifted(a.nom) && ByTypeNom(b) == p + Shifted(b.nom);
    CommonPrefixOrder(p, Shifted(a.nom), Shifted(b.nom));
    ShiftedOrder(a.nom, b.nom);
  }

  /** The equipment in the order the dedup loop walks it. */
  function ByTypeThenNom(eqs: seq<Equipement>): seq<Equipement>
  {
    SortByKey(ER.GetAllEquipements(eqs), ByTypeNom)
  }

  /** The choices the page offers: one piece of equipment per type. */
  function EquipementChoices(eqs: seq<Equipement>): seq<Equipement>
  {
    FirstPerKey(ByTypeThenNom(eqs), Kind)
  }

  /** The choices come from the equipment, cover every type and hold each type once. */
  lemma EquipementChoicesKinds(eqs: seq<Equipement>)
    ensures forall c :: c in EquipementChoices(eqs) ==> c in eqs
    ensures KindsOf(EquipementChoices(eqs)) == KindsOf(eqs)
    ensures var r := EquipementChoices(eqs); forall i, j :: 0 <= i < j < |r| ==> r[i].kind != r[j].kind
  {
    var s := ByTypeThenNom(eqs);
    FirstPerKeyKeys(s, Kind);
    FirstPerKeyFrom(s, Kind);
    SortMembers(ER.GetAllEquipements(eqs), ByTypeNom);
    forall x ensures x in s <==> x in eqs {
      assert x in ER.GetAllEquipements(eqs) <==> x in multiset(eqs);
    }
    assert KeySet(s, Kind) == KeySet(eqs, Kind);
  }

  /** The choice of each type has the smallest name among the equipment of that type. */
  lemma EquipementChoicesFirst(eqs: seq<Equipement>)
    ensures forall c, e :: c in EquipementChoices(eqs) && e in eqs && e.kind == c.kind ==>
      LexLe(CodePoints(c.nom), CodePoints(e.nom))
  {
    forall c, e | c in EquipementChoices(eqs) && e in eqs && e.kind == c.kind
      ensures LexLe(CodePoints(c.nom), CodePoints(e.nom)) {
      ChoiceFirstOfKind(eqs, c, e);
    }
  }

  /** One instance of `EquipementChoicesFirst`: the choice `c` comes before `e` of its type
      in the sorted list, so its name is not larger. */
  lemma ChoiceFirstOfKind(eqs: seq<Equipement>, c: Equipement, e: Equipement)
    requires c in EquipementChoices(eqs) && e in eqs && e.kind == c.kind
    ensures LexLe(CodePoints(c.nom), CodePoints(e.nom))
  {
    var s := ByTypeThenNom(eqs);
    var r := EquipementChoices(eqs);
    FirstPerKeyFirst(s, Kind);
    SortSorted(ER.GetAllEquipements(eqs), ByTypeNom);
    SortMembers(ER.GetAllEquipements(eqs), ByTypeNom);
    var j :| 0 <= j < |r| && r[j] == c;
    assert FirstOfKeyIn(r[j], s, Kind);
    var i :| 0 <= i < |s| && s[i] == c && forall k :: 0 <= k < i ==> Kind(s[k]) != Kind(c);
    assert e in ER.GetAllEquipements(eqs) by {
      assert e in multiset(eqs);
    }
    var k :| 0 <= k < |s| && s[k] == e;
    if k == i {
      LexLeTotal(ByTypeNom(c), ByTypeNom(c));
    } else {
      assert Kind(s[k]) == Kind(c);
      assert i < k;
    }
    SameKindOrder(c, e);
  }

  /** The dedup loop: a dictionary by type, filled in walking order with the first
      piece of each type. Its values, in insertion order, are the choices. */
  method FirstOfEachType(sorted: seq<Equipement>) returns (chosen: seq<Equipement>)
    ensures chosen == FirstPerKey(sorted, Kind)
  {
    var byType: map<string, Equipement> := map[];
    chosen := [];
    for i := 0 to |sorted|
      invariant chosen == FirstPerKey(sorted[..i], Kind)
      invariant byType.Keys == KeySet(sorted[..i], Kind)
    {
      var eq := sorted[i];
      assert sorted[..i + 1][..i] == sorted[..i];
      KeySetAppend(sorted[..i], eq, Kind);
      assert sorted[..i + 1] == sorted[..i] + [eq];
      if eq.kind !in byType {
        byType := byType[eq.kind := eq];
        chosen := chosen + [eq];
      }
    }
    assert sorted[..|sorted|] == sorted;
  }

  /** A fresh, unchecked selection item for each piece of equipment. */
  function Unchecked(eqs: seq<Equipement>): (r: seq<SelectionItem>)
    ensures |r| == |eqs| && forall i :: 0 <= i < |eqs| ==> r[i] == SelectionItem(eqs[i], false)
  {
    seq(|eqs|, i requires 0 <= i < |eqs| => SelectionItem(eqs[i], false))
  }

  /** `Where(item => item.IsSelected).Select(item => item.Equipement)`. */
  function Checked(items: seq<SelectionItem>): seq<Equipement>
  {
    if items == [] then []
    else
      var last := items[|items| - 1];
      Checked(items[..|items| - 1]) + (if last.isSelected then [last.equipement] else [])
  }

  /** The checked equipment are the equipment of the checked items, one per checked item. */
  lemma CheckedSpec(items: seq<SelectionItem>)
    ensures forall e :: e in Checked(items) <==> exists i :: 0 <= i < |items| && items[i].isSelected && items[i].equipement == e
    ensures |Checked(items)| == Count(items, (it: SelectionItem) => it.isSelected)
  {
    CheckedMembers(items);
    CheckedCount(items);
  }

  lemma {:induction false} CheckedMembers(items: seq<SelectionItem>)
    ensures forall e :: e in Checked(items) <==> exists i :: 0 <= i < |items| && items[i].isSelected && items[i].equipement == e
  {
    if items != [] {
      var p, last := items[..|items| - 1], items[|items| - 1];
      CheckedMembers(p);
      forall e ensures e in Checked(items) <==> exists i :: 0 <= i < |items| && items[i].isSelected && items[i].equipement == e {
        if exists i :: 0 <= i < |items| && items[i].isSelected && items[i].equipement == e {
          var i :| 0 <= i < |items| && items[i].isSelected && items[i].equipement == e;
          if i < |p| {
            assert p[i] == items[i];
          }
        }
        if e in Checked(p) {
          var i :| 0 <= i < |p| && p[i].isSelected && p[i].equipement == e;
          assert items[i] == p[i];
        }
      }
    }
  }

  lemma {:induction false} CheckedCount(items: seq<SelectionItem>)
    ensures |Checked(items)| == Count(items, (it: SelectionItem) => it.isSelected)
  {
    if items != [] {
      var p, last := items[..|items| - 1], items[|items| - 1];
      assert items == p + [last];
      CheckedCount(p);
      CountAppend(p, last, (it: SelectionItem) => it.isSelected);
    }
  }

  /** No item checked, no equipment selected. */
  lemma {:induction false} NoneChecked(items: seq<SelectionItem>)
    requires forall i :: 0 <= i < |items| ==> !items[i].isSelected
    ensures Checked(items) == []
  {
    if items != [] {
      NoneChecked(items[..|items| - 1]);
    }
  }

  class RoomsViewModel {
    /** `_repositoryManager != null`: set by a load. */
    var connected: bool
    var allRooms: seq<Salle>
    var rooms: seq<Salle>
    var filteredRooms: seq<Salle>
    var selectedRoom: Option<Salle>
    var searchText: string
    var minCapacity: int
    var selectedFloor: Option<int>
    var floors: seq<Option<int>>
    var availableEquipements: seq<SelectionItem>
    var selectedEquipements: seq<Equipement>

    constructor()
      ensures !connected && allRooms == [] && rooms == [] && filteredRooms == [] && selectedRoom == None
      ensures searchText == "" && minCapacity == 0 && selectedFloor == None && floors == [None]
      ensures availableEquipements == [] && selectedEquipements == []
      ensures Synced()
    {
      connected, allRooms, rooms, filteredRooms, selectedRoom := false, [], [], [], None;
      searchText, minCapacity, selectedFloor, floors := "", 0, None, [None];
      availableEquipements, selectedEquipements := [], [];
    }

    /** The selected equipment are those of the checked items: every change of a check
        box, and every new item list, runs `SyncSelectedEquipements`. */
    predicate Synced()
      reads this`selectedEquipements, this`availableEquipements
    {
      selectedEquipements == Checked(availableEquipements)
    }

    /** The filter as the current criteria give it. */
    function CurrentFilter(): seq<Salle>
      reads this
    {
      RoomFilter(allRooms, searchText, minCapacity, selectedFloor, selectedEquipements)
    }

    /** `ApplyFiltersInternal`, run to completion (the debounce and the cancellation of an
        earlier run are not modelled). */
    method ApplyFilters()
      modifies this`filteredRooms
      ensures filteredRooms == CurrentFilter()
    {
      var search, capacity, floor, selected := searchText, minCapacity, selectedFloor, selectedEquipements;
      filteredRooms := Filter(allRooms, (r: Salle) => Keep(r, search, capacity, floor, selected));
    }

    /** Assigning `SearchText`: a changed text re-runs the filter. */
    method SetSearchText(t: string)
      modifies this`searchText, this`filteredRooms
      ensures searchText == t
      ensures t != old(searchText) ==> filteredRooms == CurrentFilter()
      ensures t == old(searchText) ==> filteredRooms == old(filteredRooms)
    {
      if t != searchText {
        searchText := t;
        ApplyFilters();
      }
    }

    /** Assigning `MinCapacity`: a changed value re-runs the filter. */
    method SetMinCapacity(n: int)
      modifies this`minCapacity, this`filteredRooms
      ensures minCapacity == n
      ensures n != old(minCapacity) ==> filteredRooms == CurrentFilter()
      ensures n == old(minCapacity) ==> filteredRooms == old(filteredRooms)
    {
      if n != minCapacity {
        minCapacity := n;
        ApplyFilters();
      }
    }

    /** Assigning `SelectedFloor`: a changed value re-runs the filter. */
    method SetSelectedFloor(f: Option<int>)
      modifies this`selectedFloor, this`filteredRooms
      ensures selectedFloor == f
      ensures f != old(selectedFloor) ==> filteredRooms == CurrentFilter()
      ensures f == old(selectedFloor) ==> filteredRooms == old(filteredRooms)
    {
      if f != selectedFloor {
        selectedFloor := f;
        ApplyFilters();
      }
    }

    /** `SyncSelectedEquipements`: clears the selected list and adds the checked equipment
        one by one. The collection is changed in place, so `OnSelectedEquipementsChanged`,
        which would re-run the filter, does not fire. */
    method SyncSelectedEquipements()
      modifies this`selectedEquipements
      ensures Synced()
    {
      var checkedEquipements := Checked(availableEquipements);
      selectedEquipements := [];
      for i := 0 to |checkedEquipements|
        invariant selectedEquipements == checkedEquipements[..i]
      {
        selectedEquipements := selectedEquipements + [checkedEquipements[i]];
      }
      assert checkedEquipements[..|checkedEquipements|] == checkedEquipements;
    }

    /** Toggling the check box of item `i`: a change re-synchronises the selected list, and
        the shown rooms stay as they are. */
    method SetItemSelected(i: int, b: bool)
      requires 0 <= i < |availableEquipements|
      modifies this`availableEquipements, this`selectedEquipements
      ensures availableEquipements == old(availableEquipements)[i := old(availableEquipements)[i].(isSelected := b)]
      ensures b != old(availableEquipements)[i].isSelected ==> Synced()
      ensures b == old(availableEquipements)[i].isSelected ==>
        availableEquipements == old(availableEquipements) && selectedEquipements == old(selectedEquipements)
    {
      if b != availableEquipements[i].isSelected {
        availableEquipements := availableEquipements[i := availableEquipements[i].(isSelected := b)];
        SyncSelectedEquipements();
      } else {
        assert availableEquipements[i].(isSelected := b) == availableEquipements[i];
        availableEquipements := availableEquipements[i := availableEquipements[i].(isSelected := b)];
        assert availableEquipements == old(availableEquipements);
      }
    }

    /** `ClearEquipements`: unchecks every item in turn. */
    method ClearEquipements()
      requires Synced()
      modifies this`availableEquipements, this`selectedEquipements
      ensures |availableEquipements| == |old(availableEquipements)|
      ensures forall i :: 0 <= i < |availableEquipements| ==>
        availableEquipements[i] == old(availableEquipements)[i].(isSelected := false)
      ensures selectedEquipements == [] && Synced()
    {
      ghost var items := availableEquipements;
      for i := 0 to |availableEquipements|
        invariant |availableEquipements| == |items| && Synced()
        invariant forall k :: 0 <= k < i ==> availableEquipements[k] == items[k].(isSelected := false)
        invariant forall k :: i <= k < |items| ==> availableEquipements[k] == items[k]
      {
        SetItemSelected(i, false);
      }
      NoneChecked(availableEquipements);
    }

    /** `ResetAllFilters`: clears the three criteria, each through its setter, then every
        check box. With each setter's filter pass run to completion at once, the filter
        last ran, if at all, with the old equipment selection. */
    method ResetAllFilters()
      requires Synced()
      modifies this`searchText, this`minCapacity, this`selectedFloor, this`filteredRooms,
               this`availableEquipements, this`selectedEquipements
      ensures searchText == "" && minCapacity == 0 && selectedFloor == None
      ensures forall i :: 0 <= i < |availableEquipements| ==> !availableEquipements[i].isSelected
      ensures |availableEquipements| == |old(availableEquipements)|
      ensures selectedEquipements == [] && Synced()
      ensures ("", 0, None) != old((searchText, minCapacity, selectedFloor)) ==>
        filteredRooms == RoomFilter(allRooms, "", 0, None, old(selectedEquipements))
      ensures ("", 0, None) == old((searchText, minCapacity, selectedFloor)) ==> filteredRooms == old(filteredRooms)
    {
      SetSearchText("");
      SetMinCapacity(0);
      SetSelectedFloor(None);
      ClearEquipements();
    }

    /** `Reserve`: a null room, or a page not yet loaded, does nothing; otherwise the room
        becomes the selected one (the dialog that follows is not modelled here). */
    method Reserve(salle: Option<Salle>)
      modifies this`selectedRoom
      ensures salle.None? || !connected ==> selectedRoom == old(selectedRoom)
      ensures salle.Some? && connected ==> selectedRoom == salle
    {
      if salle.None? || !connected {
        return;
      }
      selectedRoom := salle;
    }

    /** The part of the page a load replaces. */
    function PageOf(): Page
      reads this`allRooms, this`rooms, this`filteredRooms, this`floors, this`availableEquipements,
            this`selectedEquipements
    {
      Page(allRooms, rooms, filteredRooms, floors, availableEquipements, selectedEquipements)
    }

    /** `LoadDataAsync`: the page becomes the one `AfterLoad` gives, and the selected
        equipment stay those of the checked items. */
    method LoadData(db: Database)
      requires Synced()
      modifies this`connected, this`allRooms, this`rooms, this`filteredRooms, this`floors,
               this`availableEquipements, this`selectedEquipements
      ensures connected && Synced()
      ensures PageOf() == AfterLoad(old(PageOf()), db.salles, db.equipements)
    {
      ghost var before := PageOf();
      connected := true;
      var page := LoadPage(PageOf(), db.salles, db.equipements);
      AfterLoadSynced(before, db.salles, db.equipements);
      SetPage(page);
    }

    /** Writes a page into the fields it models. */
    method SetPage(page: Page)
      modifies this`allRooms, this`rooms, this`filteredRooms, this`floors,
               this`availableEquipements, this`selectedEquipements
      ensures PageOf() == page
      ensures selectedEquipements == page.selectedEquipements && availableEquipements == page.availableEquipements
    {
      allRooms, rooms, filteredRooms, floors := page.allRooms, page.rooms, page.filteredRooms, page.floors;
      availableEquipements, selectedEquipements := page.availableEquipements, page.selectedEquipements;
    }
  }

  /** The part of the rooms page a load replaces: the room lists, the floor options and
      the equipment check boxes with the selection they give. */
  datatype Page = Page(
    allRooms: seq<Salle>, rooms: seq<Salle>, filteredRooms: seq<Salle>, floors: seq<Option<int>>,
    availableEquipements: seq<SelectionItem>, selectedEquipements: seq<Equipement>)

  /** The page after `LoadDataAsync` read `salles` and `eqs`: when there are rooms, all of
      them are shown whatever the criteria, with their floors; when there is equipment as
      well, one unchecked choice per type is offered and none is selected. With no room
      nothing changes. */
  function AfterLoad(p: Page, salles: seq<Salle>, eqs: seq<Equipement>): Page
  {
    var loaded := SR.GetAllSalles(salles, eqs);
    if |loaded| == 0 then p
    else
      var shown := p.(allRooms := loaded, rooms := loaded, filteredRooms := loaded,
                      floors := FloorOptionList(DistinctFloors(loaded)));
      if |eqs| == 0 then shown
      else shown.(availableEquipements := Unchecked(EquipementChoices(eqs)), selectedEquipements := [])
  }

  /** The catalogue lists every room once. */
  lemma CatalogueLength(salles: seq<Salle>, eqs: seq<Equipement>)
    ensures |SR.GetAllSalles(salles, eqs)| == |salles|
  {
    FilterAll(salles, (s: Salle) => true);
  }

  /** With no room, a load changes nothing. */
  lemma AfterLoadNoRooms(p: Page, salles: seq<Salle>, eqs: seq<Equipement>)
    requires |salles| == 0
    ensures AfterLoad(p, salles, eqs) == p
  {
    CatalogueLength(salles, eqs);
  }

  /** With rooms, a load shows every room of the catalogue with its equipment, whatever
      the criteria, with the floor options of those rooms; with equipment as well, the
      check boxes become the unchecked choices; with no equipment they stay as they were. */
  lemma AfterLoadRooms(p: Page, salles: seq<Salle>, eqs: seq<Equipement>)
    requires |salles| > 0
    ensures var q := AfterLoad(p, salles, eqs);
      q.allRooms == q.rooms == q.filteredRooms == SR.GetAllSalles(salles, eqs) &&
      (forall s :: s in salles ==> SR.Load(s, eqs) in q.filteredRooms) &&
      |q.filteredRooms| == |salles| &&
      q.floors == FloorOptionList(DistinctFloors(SR.GetAllSalles(salles, eqs)))
    ensures var q := AfterLoad(p, salles, eqs);
      |eqs| > 0 ==> q.availableEquipements == Unchecked(EquipementChoices(eqs)) && q.selectedEquipements == []
    ensures var q := AfterLoad(p, salles, eqs);
      |eqs| == 0 ==> q.availableEquipements == p.availableEquipements && q.selectedEquipements == p.selectedEquipements
  {
    CatalogueLength(salles, eqs);
    SR.QueryMembers(salles, eqs, (s: Salle) => true, SR.ByEtageNom);
  }

  /** The floor options of the catalogue are "all floors" and then floors, ascending. */
  lemma CatalogueFloorsOrdered(salles: seq<Salle>, eqs: seq<Equipement>)
    ensures var floors := FloorOptionList(DistinctFloors(SR.GetAllSalles(salles, eqs)));
      (forall i :: 1 <= i < |floors| ==> floors[i].Some?) &&
      (forall i, j :: 1 <= i < j < |floors| ==> floors[i].value < floors[j].value)
  {
    FloorOptionsOrdered(SR.GetAllSalles(salles, eqs));
  }

  /** The floor options of any rooms are "all floors" and then floors, ascending. */
  lemma FloorOptionsOrdered(rooms: seq<Salle>)
    ensures var floors := FloorOptionList(DistinctFloors(rooms));
      (forall i :: 1 <= i < |floors| ==> floors[i].Some?) &&
      (forall i, j :: 1 <= i < j < |floors| ==> floors[i].value < floors[j].value)
  {
    var d := DistinctFloors(rooms);
    var floors := FloorOptionList(d);
    DistinctFloorsSpec(rooms);
    forall i, j | 1 <= i < j < |floors| ensures floors[i].value < floors[j].value {
      assert floors[i] == Some(d[i - 1]) && floors[j] == Some(d[j - 1]);
    }
  }

  /** A floor is offered exactly when a room of the tables is on it. */
  lemma CatalogueFloorsMembers(salles: seq<Salle>, eqs: seq<Equipement>)
    ensures var floors := FloorOptionList(DistinctFloors(SR.GetAllSalles(salles, eqs)));
      forall f :: Some(f) in floors <==> exists s :: s in salles && s.etage == f
  {
    var loaded := SR.GetAllSalles(salles, eqs);
    var d := DistinctFloors(loaded);
    var floors := FloorOptionList(d);
    forall f ensures Some(f) in floors <==> f in d {
      if Some(f) in floors {
        var k :| 0 <= k < |floors| && floors[k] == Some(f);
        assert k > 0 && d[k - 1] == f;
      }
      if f in d {
        var k :| 0 <= k < |d| && d[k] == f;
        assert floors[k + 1] == Some(f);
      }
    }
    DistinctFloorsSpec(loaded);
    forall f ensures f in d <==> exists s :: s in salles && s.etage == f {
      CatalogueFloor(salles, eqs, f);
    }
  }

  /** A room of the catalogue is on floor `f` exactly when a room of the tables is. */
  lemma CatalogueFloor(salles: seq<Salle>, eqs: seq<Equipement>, f: int)
    ensures var loaded := SR.GetAllSalles(salles, eqs);
      (exists i :: 0 <= i < |loaded| && loaded[i].etage == f) <==> exists s :: s in salles && s.etage == f
  {
    SR.GetAllSallesSorted(salles, eqs);
    var sorted := SortByKey(salles, SR.ByEtageNom);
    SortMembers(salles, SR.ByEtageNom);
    LoadedFloor(sorted, eqs, f);
    if exists s :: s in salles && s.etage == f {
      var s :| s in salles && s.etage == f;
      assert s in sorted;
    }
  }

  /** Loading the equipment keeps the floors: a loaded room is on floor `f` exactly when
      one of the rooms is. */
  lemma LoadedFloor(rooms: seq<Salle>, eqs: seq<Equipement>, f: int)
    ensures var loaded := SR.LoadAll(rooms, eqs);
      (exists i :: 0 <= i < |loaded| && loaded[i].etage == f) <==> exists s :: s in rooms && s.etage == f
  {
    var loaded := SR.LoadAll(rooms, eqs);
    if exists i :: 0 <= i < |loaded| && loaded[i].etage == f {
      var i :| 0 <= i < |loaded| && loaded[i].etage == f;
      assert rooms[i] in rooms && rooms[i].etage == f;
    }
    if exists s :: s in rooms && s.etage == f {
      var s :| s in rooms && s.etage == f;
      var i :| 0 <= i < |rooms| && rooms[i] == s;
      assert loaded[i].etage == f;
    }
  }

  /** The offered check boxes are unchecked, select nothing, and each holds a piece of
      equipment of the tables. */
  lemma OfferedChoicesFrom(eqs: seq<Equipement>)
    ensures var items := Unchecked(EquipementChoices(eqs));
      (forall i :: 0 <= i < |items| ==> !items[i].isSelected && items[i].equipement in eqs) &&
      Checked(items) == []
  {
    var r := EquipementChoices(eqs);
    var items := Unchecked(r);
    EquipementChoicesKinds(eqs);
    NoneChecked(items);
    forall i | 0 <= i < |items| ensures items[i].equipement in eqs {
      assert items[i].equipement == r[i] && r[i] in r;
    }
  }

  /** The offered check boxes hold one piece of equipment of every type, and no type twice. */
  lemma OfferedChoicesKinds(eqs: seq<Equipement>)
    ensures var items := Unchecked(EquipementChoices(eqs));
      (forall i, j :: 0 <= i < j < |items| ==> items[i].equipement.kind != items[j].equipement.kind) &&
      (forall e :: e in eqs ==> exists i :: 0 <= i < |items| && items[i].equipement.kind == e.kind)
  {
    var r := EquipementChoices(eqs);
    var items := Unchecked(r);
    EquipementChoicesKinds(eqs);
    forall e | e in eqs ensures exists i :: 0 <= i < |items| && items[i].equipement.kind == e.kind {
      assert Kind(e) in KindsOf(eqs);
      assert Kind(e) in KindsOf(r);
      var c :| c in r && Kind(c) == Kind(e);
      var i :| 0 <= i < |r| && r[i] == c;
      assert items[i].equipement == c;
    }
  }

  /** A load keeps the selected equipment equal to those of the checked items. */
  lemma AfterLoadSynced(p: Page, salles: seq<Salle>, eqs: seq<Equipement>)
    requires p.selectedEquipements == Checked(p.availableEquipements)
    ensures var q := AfterLoad(p, salles, eqs); q.selectedEquipements == Checked(q.availableEquipements)
  {
    if |SR.GetAllSalles(salles, eqs)| > 0 && |eqs| > 0 {
      NoneChecked(Unchecked(EquipementChoices(eqs)));
    }
  }

  /** What `LoadDataAsync` computes, with its two loops: the room list, the floor options
      and, when there is equipment, the one-per-type walk over the listing. */
  method LoadPage(p: Page, salles: seq<Salle>, eqs: seq<Equipement>) returns (q: Page)
    ensures q == AfterLoad(p, salles, eqs)
  {
    var loaded := SR.GetAllSalles(salles, eqs);
    var equipements := ER.GetAllEquipements(eqs);
    q := p;
    if |loaded| > 0 {
      var floorOptions := FloorChoices(loaded);
      q := q.(allRooms := loaded, rooms := loaded, filteredRooms := loaded, floors := floorOptions);
      if |equipements| > 0 {
        var chosen := FirstOfEachType(SortByKey(equipements, ByTypeNom));
        q := q.(availableEquipements := Unchecked(chosen), selectedEquipements := []);
      }
    }
  }
}
