/**
 * The SQLite database as an object whose tables are sequences in row order.
 * Queries are functions of the tables; the repositories' INSERT, UPDATE and DELETE
 * statements are methods that reassign a table.
 */
module Store {
  import opened Wrappers
  import opened Seqs
  import opened ReservationSystemModels

  /** A row of the Reservation table. `statut` is the stored text; `heureDebut` and
      `heureFin` are the "hh:mm:ss" text read back as seconds. */
  datatype Row = Row(
    id: int, dateReservation: int, motif: string, statut: string,
    userId: int, salleId: int, creneauId: Option<int>,
    dateDebut: int, dateFin: int, heureDebut: int, heureFin: int)

  /** The application's database. */
  class Database {
    var users: seq<User>
    var salles: seq<Salle>
    var equipements: seq<Equipement>
    var creneaux: seq<Creneau>
    var reservations: seq<Row>
    var historique: seq<Historique>

    /** A fresh, empty database. */
    constructor ()
      ensures users == [] && salles == [] && equipements == []
      ensures creneaux == [] && reservations == [] && historique == []
    {
      users, salles, equipements := [], [], [];
      creneaux, reservations, historique := [], [], [];
    }
  }

  /** The key column of a table. */
  function Ids<T>(t: seq<T>, id: T -> int): (r: seq<int>)
    ensures |r| == |t|
    ensures forall i :: 0 <= i < |t| ==> r[i] == id(t[i])
  {
    seq(|t|, i requires 0 <= i < |t| => id(t[i]))
  }

  /** The id SQLite gives the next inserted row: one more than the largest id in use. */
  function NextId<T>(t: seq<T>, id: T -> int): (n: int)
    ensures n > 0
    ensures forall i :: 0 <= i < |t| ==> id(t[i]) < n
  {
    var ids := Ids(t, id);
    assert forall i :: 0 <= i < |t| ==> ids[i] == id(t[i]);
    MaxOr0(ids) + 1
  }

  /** No two rows of a table share a key (PRIMARY KEY). */
  predicate UniqueIds<T>(t: seq<T>, id: T -> int)
  {
    forall i, j :: 0 <= i < j < |t| ==> id(t[i]) != id(t[j])
  }

  /** A row with this key exists. */
  predicate HasId<T>(t: seq<T>, id: T -> int, k: int)
  {
    exists i :: 0 <= i < |t| && id(t[i]) == k
  }

  /** `SELECT ... WHERE id = @id`, first match (the key is unique in a well-formed table). */
  function FindById<T>(t: seq<T>, id: T -> int, k: int): (r: Option<T>)
    ensures r.Some? <==> HasId(t, id, k)
    ensures r.Some? ==> r.value in t && id(r.value) == k
    ensures r.Some? && UniqueIds(t, id) ==> forall i :: 0 <= i < |t| && id(t[i]) == k ==> t[i] == r.value
  {
    if t == [] then None
    else if id(t[0]) == k then Some(t[0])
    else
      var r := FindById(t[1..], id, k);
      assert forall i :: 1 <= i < |t| ==> t[i] == t[1..][i - 1];
      r
  }

  /** Appending a row whose key is `NextId` keeps the keys unique. */
  lemma AppendNextIdUnique<T>(t: seq<T>, id: T -> int, x: T)
    requires UniqueIds(t, id) && id(x) == NextId(t, id)
    ensures UniqueIds(t + [x], id)
  {
  }

  /** `DELETE FROM t WHERE id = @id`. */
  function DeleteById<T(!new)>(t: seq<T>, id: T -> int, k: int): (r: seq<T>)
    ensures forall x :: x in r <==> x in t && id(x) != k
    ensures |r| < |t| <==> HasId(t, id, k)
  {
    var r := Filter(t, x => id(x) != k);
    FilterCountDeleted(t, id, k);
    r
  }

  lemma {:induction false} FilterCountDeleted<T(!new)>(t: seq<T>, id: T -> int, k: int)
    ensures |Filter(t, x => id(x) != k)| < |t| <==> HasId(t, id, k)
  {
    if t != [] {
      FilterCountDeleted(t[1..], id, k);
      assert forall i :: 1 <= i < |t| ==> t[i] == t[1..][i - 1];
      assert HasId(t[1..], id, k) ==> HasId(t, id, k) by {
        if HasId(t[1..], id, k) {
          var i :| 0 <= i < |t[1..]| && id(t[1..][i]) == k;
          assert id(t[i + 1]) == k;
        }
      }
    }
  }

  /** Deleting one key keeps every other key present, and adds none. */
  lemma DeleteKeepsOthers<T(!new)>(t: seq<T>, id: T -> int, k: int, other: int)
    requires other != k
    ensures HasId(DeleteById(t, id, k), id, other) <==> HasId(t, id, other)
  {
    var r := DeleteById(t, id, k);
    if HasId(t, id, other) {
      var i :| 0 <= i < |t| && id(t[i]) == other;
      assert t[i] in r;
    }
    if HasId(r, id, other) {
      var i :| 0 <= i < |r| && id(r[i]) == other;
      assert r[i] in t;
    }
  }
}
