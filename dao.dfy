/**
 * The `workouts` table behind `WorkoutDao`. Each row keeps a workout's id, its
 * name and its exercise list in the converted text form of the
 * `exercises_list` column; the ghost map `rows` is the table as the DAO's
 * callers see it, every row decoded.
 */
module Dao {
  import opened Wrappers
  import opened Model
  import opened Converters

  /** One row of the `workouts` table. */
  datatype Row = Row(id: Id, name: string, exercisesList: Option<string>)

  /** What Room writes for a workout: the list goes through `fromExerciseList`. */
  function ToRow(w: Workout): Row {
    Row(w.id, w.name, FromExerciseList(Some(w.exercises)))
  }

  /**
   * What Room reads back: the column goes through `toExerciseList`. Decoding
   * fails only on text the converter did not write; `WorkoutStore` never
   * holds such a row.
   */
  function FromRow(r: Row): Result<Workout, ConvertError> {
    var xs :- ToExerciseList(r.exercisesList);
    Success(Workout(r.id, r.name, xs))
  }

  /** A stored workout is read back unchanged. */
  lemma RowRoundTrip(w: Workout)
    ensures FromRow(ToRow(w)) == Success(w)
  {
    Converters.RoundTrip(w.exercises);
  }

  /** A write call the DAO received, whether or not it changed a row. */
  datatype Write = Insert(workout: Workout) | Update(workout: Workout) | Delete(workout: Workout)

  // ------------------------------------------------- the table as a map

  /** Every record is stored under its own id. */
  ghost predicate KeyedById(rows: map<Id, Workout>) {
    forall id :: id in rows ==> rows[id].id == id
  }

  /** `@Insert(onConflict = REPLACE)`. */
  function AfterInsert(rows: map<Id, Workout>, w: Workout): map<Id, Workout> {
    rows[w.id := w]
  }

  /** `@Update`: the row with the same primary key, if there is one. */
  function AfterUpdate(rows: map<Id, Workout>, w: Workout): map<Id, Workout> {
    if w.id in rows then rows[w.id := w] else rows
  }

  /** `@Delete`: the row with the same primary key, whatever the other fields. */
  function AfterDelete(rows: map<Id, Workout>, w: Workout): map<Id, Workout> {
    rows - {w.id}
  }

  /** Inserting under a new id adds exactly one record and leaves every other one as it was. */
  lemma InsertFresh(rows: map<Id, Workout>, w: Workout)
    requires w.id !in rows
    ensures |AfterInsert(rows, w)| == |rows| + 1
    ensures forall id :: id in rows ==> id in AfterInsert(rows, w) && AfterInsert(rows, w)[id] == rows[id]
  {
  }

  /** Inserting under an existing id replaces the whole record, with no merge, and keeps the count. */
  lemma InsertExisting(rows: map<Id, Workout>, w: Workout)
    requires w.id in rows
    ensures |AfterInsert(rows, w)| == |rows|
    ensures AfterInsert(rows, w)[w.id] == w
    ensures AfterInsert(rows, w).Keys == rows.Keys
  {
  }

  /** Inserting the same workout twice leaves the table as one insert does. */
  lemma InsertIdempotent(rows: map<Id, Workout>, w: Workout)
    ensures AfterInsert(AfterInsert(rows, w), w) == AfterInsert(rows, w)
  {
  }

  /** Insert and update keep every record under its own id. */
  lemma WritesKeepKeys(rows: map<Id, Workout>, w: Workout)
    requires KeyedById(rows)
    ensures KeyedById(AfterInsert(rows, w)) && KeyedById(AfterUpdate(rows, w)) && KeyedById(AfterDelete(rows, w))
  {
  }

  /** Update replaces the record with the same id, and is a no-op when there is none. */
  lemma UpdateSemantics(rows: map<Id, Workout>, w: Workout)
    ensures w.id in rows ==> AfterUpdate(rows, w) == AfterInsert(rows, w)
    ensures w.id !in rows ==> AfterUpdate(rows, w) == rows
    ensures |AfterUpdate(rows, w)| == |rows|
  {
  }

  /** Delete removes only the record with that id, whatever the other fields say; an absent id is a no-op. */
  lemma DeleteSemantics(rows: map<Id, Workout>, w: Workout, w': Workout)
    requires w'.id == w.id
    ensures AfterDelete(rows, w) == AfterDelete(rows, w')
    ensures w.id !in AfterDelete(rows, w)
    ensures forall id :: id in rows && id != w.id ==> id in AfterDelete(rows, w) && AfterDelete(rows, w)[id] == rows[id]
    ensures w.id !in rows ==> AfterDelete(rows, w) == rows
    ensures w.id in rows ==> |AfterDelete(rows, w)| == |rows| - 1
  {
  }

  // ------------------------------------------------ ORDER BY name ASC

  /**
   * Lexicographic order on names, character by character, a proper prefix
   * first: SQLite's BINARY collation, which compares the UTF-8 bytes and so
   * orders by code point.
   */
  predicate NameLe(a: string, b: string)
    decreases |a|
  {
    if a == [] then true
    else if b == [] then false
    else if a[0] != b[0] then a[0] < b[0]
    else NameLe(a[1..], b[1..])
  }

  lemma {:induction false} NameLeTotal(a: string, b: string)
    ensures NameLe(a, b) || NameLe(b, a)
    decreases |a|
  {
    if a != [] && b != [] && a[0] == b[0] {
      NameLeTotal(a[1..], b[1..]);
    }
  }

  lemma {:induction false} NameLeTransitive(a: string, b: string, c: string)
    requires NameLe(a, b) && NameLe(b, c)
    ensures NameLe(a, c)
    decreases |a|
  {
    if a != [] && a[0] == b[0] && b[0] == c[0] {
      NameLeTransitive(a[1..], b[1..], c[1..]);
    }
  }

  lemma {:induction false} NameLeAntisymmetric(a: string, b: string)
    requires NameLe(a, b) && NameLe(b, a)
    ensures a == b
    decreases |a|
  {
    if a != [] {
      NameLeAntisymmetric(a[1..], b[1..]);
      assert a == [a[0]] + a[1..] && b == [b[0]] + b[1..];
    }
  }

  predicate SortedByName(ws: seq<Workout>) {
    forall i, j :: 0 <= i < j < |ws| ==> NameLe(ws[i].name, ws[j].name)
  }

  /** No two workouts of `ws` have the same name. */
  predicate DistinctNames(ws: seq<Workout>) {
    forall i, j :: 0 <= i < j < |ws| ==> ws[i].name != ws[j].name
  }

  /** `ws` with `w` inserted before the first workout whose name is not below `w`'s. */
  function InsertByName(ws: seq<Workout>, w: Workout): (r: seq<Workout>)
    ensures multiset(r) == multiset(ws) + multiset{w}
  {
    if ws == [] then [w]
    else if NameLe(w.name, ws[0].name) then [w] + ws
    else
      assert ws == [ws[0]] + ws[1..];
      [ws[0]] + InsertByName(ws[1..], w)
  }

  lemma {:induction false} InsertByNameSorted(ws: seq<Workout>, w: Workout)
    requires SortedByName(ws)
    ensures SortedByName(InsertByName(ws, w))
  {
    if ws == [] {
    } else if NameLe(w.name, ws[0].name) {
      forall j | 0 < j < |ws| ensures NameLe(w.name, ws[j].name) {
        NameLeTransitive(w.name, ws[0].name, ws[j].name);
      }
    } else {
      NameLeTotal(w.name, ws[0].name);
      assert SortedByName(ws[1..]) by {
        forall i, j | 0 <= i < j < |ws[1..]| ensures NameLe(ws[1..][i].name, ws[1..][j].name) {
          assert ws[1..][i] == ws[i + 1] && ws[1..][j] == ws[j + 1];
        }
      }
      InsertByNameSorted(ws[1..], w);
      var rest := InsertByName(ws[1..], w);
      forall j | 0 <= j < |rest| ensures NameLe(ws[0].name, rest[j].name) {
        assert rest[j] in multiset(rest);
        if rest[j] != w {
          assert rest[j] in ws[1..];
          var m :| 0 <= m < |ws[1..]| && ws[1..][m] == rest[j];
          assert ws[m + 1] == rest[j];
        }
      }
    }
  }

  lemma SortedTail(ws: seq<Workout>)
    requires ws != [] && SortedByName(ws)
    ensures SortedByName(ws[1..])
  {
    forall i, j | 0 <= i < j < |ws[1..]| ensures NameLe(ws[1..][i].name, ws[1..][j].name) {
      assert ws[1..][i] == ws[i + 1] && ws[1..][j] == ws[j + 1];
    }
  }

  lemma DistinctTail(ws: seq<Workout>)
    requires ws != [] && DistinctNames(ws)
    ensures DistinctNames(ws[1..])
  {
    forall i, j | 0 <= i < j < |ws[1..]| ensures ws[1..][i].name != ws[1..][j].name {
      assert ws[1..][i] == ws[i + 1] && ws[1..][j] == ws[j + 1];
    }
  }

  /** Two sorted lists with the same elements and no repeated name start with the same workout. */
  lemma SameFirst(a: seq<Workout>, b: seq<Workout>)
    requires a != [] && SortedByName(a) && SortedByName(b) && DistinctNames(a)
    requires multiset(a) == multiset(b)
    ensures b != [] && a[0] == b[0]
  {
    assert a[0] in multiset(b) && b[0] in multiset(a);
    var j :| 0 <= j < |b| && b[j] == a[0];
    var i :| 0 <= i < |a| && a[i] == b[0];
    if i != 0 && j != 0 {
      NameLeAntisymmetric(a[0].name, a[i].name);
      assert false;
    }
  }

  /** Two name-sorted lists with the same elements and no repeated name are the same list. */
  lemma {:induction false} SortedListsWithDistinctNamesAreEqual(a: seq<Workout>, b: seq<Workout>)
    requires SortedByName(a) && SortedByName(b) && DistinctNames(a)
    requires multiset(a) == multiset(b)
    ensures a == b
  {
    if a == [] {
      assert |b| == |multiset(b)| == 0;
    } else {
      SameFirst(a, b);
      assert a == [a[0]] + a[1..] && b == [b[0]] + b[1..];
      assert multiset(a[1..]) == multiset(a) - multiset{a[0]};
      assert multiset(b[1..]) == multiset(b) - multiset{b[0]};
      SortedTail(a);
      SortedTail(b);
      DistinctTail(a);
      SortedListsWithDistinctNamesAreEqual(a[1..], b[1..]);
    }
  }

  /**
   * `ws` lists the records of `rows` stored under the ids of `ids`, sorted by
   * name, each of them exactly once and nothing else.
   */
  ghost predicate ListsExactly(rows: map<Id, Workout>, ids: set<Id>, ws: seq<Workout>) {
    && SortedByName(ws)
    && (forall i :: 0 <= i < |ws| ==> ws[i].id in ids && ws[i].id in rows && rows[ws[i].id] == ws[i])
    && (forall id :: id in ids ==> multiset(ws)[rows[id]] == 1)
  }

  /**
   * `ws` is a result of `SELECT * FROM workouts ORDER BY name ASC`: sorted by
   * name, holding only stored records and every stored record exactly once.
   * The order among equal names is left open.
   */
  ghost predicate IsListing(rows: map<Id, Workout>, ws: seq<Workout>) {
    ListsExactly(rows, rows.Keys, ws)
  }

  /**
   * The name is not a key: inserting a workout whose name another stored
   * workout already has adds a second row, and the listing shows both.
   */
  lemma NamesAreNotKeys(rows: map<Id, Workout>, w: Workout, other: Id, ws: seq<Workout>)
    requires KeyedById(rows) && w.id !in rows
    requires other in rows && rows[other].name == w.name
    ensures |AfterInsert(rows, w)| == |rows| + 1
    ensures AfterInsert(rows, w)[w.id] == w && AfterInsert(rows, w)[other] == rows[other]
    ensures IsListing(AfterInsert(rows, w), ws) ==>
      w in ws && rows[other] in ws && w != rows[other] && |ws| >= 2
  {
  }

  /** Inserting by name adds exactly one element and drops none. */
  lemma InsertByNameMembers(ws: seq<Workout>, w: Workout)
    ensures |InsertByName(ws, w)| == |ws| + 1
    ensures forall x :: x in InsertByName(ws, w) <==> x == w || x in ws
  {
    var r := InsertByName(ws, w);
    assert |r| == |multiset(r)|;
    forall x ensures x in r <==> x == w || x in ws {
      assert (x in r <==> x in multiset(r)) && (x in ws <==> x in multiset(ws));
    }
  }

  /** One more record, inserted by name, extends a listing of some of the ids by its id. */
  lemma ListingStep(rows: map<Id, Workout>, ids: set<Id>, ws: seq<Workout>, id: Id)
    requires KeyedById(rows) && ids <= rows.Keys
    requires ListsExactly(rows, ids, ws)
    requires id in rows && id !in ids
    ensures ListsExactly(rows, ids + {id}, InsertByName(ws, rows[id]))
    ensures |InsertByName(ws, rows[id])| == |ws| + 1 && |ids + {id}| == |ids| + 1
  {
    var w := rows[id];
    var ws' := InsertByName(ws, w);
    InsertByNameMembers(ws, w);
    InsertByNameSorted(ws, w);
    assert w !in ws by {
      forall i | 0 <= i < |ws| ensures ws[i] != w {
        assert ws[i].id in ids;
      }
    }
    forall i | 0 <= i < |ws'| ensures ws'[i].id in ids + {id} && ws'[i].id in rows && rows[ws'[i].id] == ws'[i] {
      assert ws'[i] in ws';
      if ws'[i] != w {
        var m :| 0 <= m < |ws| && ws[m] == ws'[i];
      }
    }
    forall id' | id' in ids + {id} ensures multiset(ws')[rows[id']] == 1 {
      if id' != id {
        assert rows[id'].id == id';
      }
    }
  }

  /** The same step seen from the ids still to be listed: one fewer of them remains. */
  lemma ListingAdvance(rows: map<Id, Workout>, keys: set<Id>, remaining: set<Id>, ws: seq<Workout>, id: Id)
    requires KeyedById(rows) && keys <= rows.Keys && remaining <= keys && id in remaining
    requires ListsExactly(rows, keys - remaining, ws) && |ws| + |remaining| == |keys|
    ensures ListsExactly(rows, keys - (remaining - {id}), InsertByName(ws, rows[id]))
    ensures |InsertByName(ws, rows[id])| + |remaining - {id}| == |keys|
  {
    ListingStep(rows, keys - remaining, ws, id);
    assert (keys - remaining) + {id} == keys - (remaining - {id});
  }

  // ----------------------------------------------------------- the store

  class WorkoutStore {
    /** The rows, by primary key. */
    var table: map<Id, Row>
    /** Every write call received, oldest first. */
    var writes: seq<Write>
    /** The table with every row decoded. */
    ghost var rows: map<Id, Workout>

    ghost predicate Valid()
      reads this
    {
      && table.Keys == rows.Keys
      && KeyedById(rows)
      && forall id :: id in table ==> table[id] == ToRow(rows[id])
    }

    /** An empty database. */
    constructor ()
      ensures Valid() && rows == map[] && writes == []
    {
      table, writes, rows := map[], [], map[];
    }

    method InsertWorkout(w: Workout)
      requires Valid()
      modifies this
      ensures Valid()
      ensures rows == AfterInsert(old(rows), w)
      ensures writes == old(writes) + [Insert(w)]
    {
      table := table[w.id := ToRow(w)];
      rows := rows[w.id := w];
      writes := writes + [Insert(w)];
    }

    method UpdateWorkout(w: Workout)
      requires Valid()
      modifies this
      ensures Valid()
      ensures rows == AfterUpdate(old(rows), w)
      ensures writes == old(writes) + [Update(w)]
    {
      if w.id in table {
        table := table[w.id := ToRow(w)];
        rows := rows[w.id := w];
      }
      writes := writes + [Update(w)];
    }

    method DeleteWorkout(w: Workout)
      requires Valid()
      modifies this
      ensures Valid()
      ensures rows == AfterDelete(old(rows), w)
      ensures writes == old(writes) + [Delete(w)]
    {
      table := table - {w.id};
      rows := rows - {w.id};
      writes := writes + [Delete(w)];
    }

    /**
     * `getWorkoutByIdSuspend`, and the current value of the `getWorkoutById`
     * feed: the stored record for `id`, or null.
     */
    method GetWorkoutById(id: Id) returns (r: Option<Workout>)
      requires Valid()
      ensures r.Some? <==> id in rows
      ensures r.Some? ==> r.value == rows[id] && r.value.id == id
    {
      if id in table {
        RowRoundTrip(rows[id]);
        r := Some(FromRow(table[id]).value);
      } else {
        r := None;
      }
    }

    /** `getWorkoutsCount`: the number of distinct ids stored. */
    method GetWorkoutsCount() returns (n: nat)
      requires Valid()
      ensures n == |rows.Keys|
    {
      n := |table|;
      assert table.Keys == rows.Keys;
    }

    /** `getAllWorkouts`, the current value of that feed: every record once, sorted by name. */
    method GetAllWorkouts() returns (ws: seq<Workout>)
      requires Valid()
      ensures IsListing(rows, ws)
      ensures |ws| == |rows|
    {
      var t, keys := table, table.Keys;
      ghost var decoded := rows;
      ws := [];
      var remaining := keys;
      while remaining != {}
        invariant remaining <= keys
        invariant ListsExactly(decoded, keys - remaining, ws)
        invariant |ws| + |remaining| == |keys|
        decreases remaining
      {
        var id :| id in remaining;
        RowRoundTrip(decoded[id]);
        var w := FromRow(t[id]).value;
        ListingAdvance(decoded, keys, remaining, ws, id);
        ws := InsertByName(ws, w);
        remaining := remaining - {id};
      }
      assert keys - remaining == rows.Keys;
    }
  }
}
